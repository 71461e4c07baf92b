// The revisions of the protocol, in order.
module Revisions {

  type Revision = r: nat | r <= 10
  const HOMESTEAD: Revision := 1
  const SPURIOUS: Revision := 3
  const BYZANTIUM: Revision := 4
  const CONSTANTINOPLE: Revision := 5
  const ISTANBUL: Revision := 7
  const BERLIN: Revision := 8
  const LONDON: Revision := 9
}
