/** Capture records (pkg/packets/models.go). */
module Packets {

  /** One capture record. `typeCode` is the source's `float64` protocol code;
      `capturedAt` is the stored capture instant in Unix nanoseconds and
      `capturedAtNano` the nanosecond timestamp the reconstruction sorts and
      places by. */
  datatype Packet = Packet(
    device: string,
    typeCode: real,
    srcIp: string,
    dstIp: string,
    srcPort: string,
    dstPort: string,
    payload: string,
    capturedAt: int,
    capturedAtNano: int)

  /** `Packet.GetType`: 0 is TCP, 1 is UDP, every other code is unrecognized. */
  function GetType(typeCode: real): (s: string)
    ensures s == "TCP" || s == "UDP" || s == "Unrecognized"
    ensures s == "TCP" <==> typeCode == 0.0
    ensures s == "UDP" <==> typeCode == 1.0
  {
    if typeCode == 0.0 then "TCP"
    else if typeCode == 1.0 then "UDP"
    else "Unrecognized"
  }
}
