/** The values that several components exchange: zones, boxes and frames. */
module Models {
  import opened Common

  type ZoneId = string

  datatype Zone = Zone(id: ZoneId, name: string, enabled: bool, polygon: seq<(int, int)>)

  /** The model validator of a zone: at least three vertices. */
  predicate ValidZone(z: Zone) {
    |z.polygon| >= 3
  }

  datatype BoundingBox = BoundingBox(x1: int, y1: int, x2: int, y2: int, confidence: real)

  datatype Frame = Frame(pixels: seq<int>)

  /** What the server sends to a client. */
  datatype Message =
    | Detection(frameId: int, boxes: seq<BoundingBox>)
    | Error(errorFor: Option<int>)
    | Pong(pingTimestamp: int)

  /** The frame a message answers; 0, which no frame has, when it answers none. */
  function IdOf(m: Message): int {
    match m
    case Detection(id, _) => id
    case Error(Some(id)) => id
    case _ => 0
  }

  function Ids(ms: seq<Message>): seq<int> {
    seq(|ms|, i requires 0 <= i < |ms| => IdOf(ms[i]))
  }
}
