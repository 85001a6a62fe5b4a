/** The radio frame that every stage of the receiver passes on. */
module Frames {
  import opened Numbers

  type Address = a: seq<u8> | |a| == 6 witness [0, 0, 0, 0, 0, 0]

  const MAXIMUM_BODY_SIZE: nat := 16 * 1024

  /** Signal readings carry one signed byte for each of the two antenna paths. */
  datatype RadioFrame = RadioFrame(
    captureTime: u64, tsfl: u32, sequence: u16, rate: u16, bandwidth: u8,
    crcError: bool, icvError: bool, ldpc: bool, shortGuardInterval: bool,
    rssi: (i8, i8), snr: (i8, i8), evm: (i8, i8), source: Address, body: seq<u8>)

  datatype WfbPacketType = UnknownPacket | DataPacket | SessionPacket

  /** A line of receiver output: no frame event, or an event with the frame it parses to. */
  datatype InputLine = Other | Event(parsed: Option<RadioFrame>)

  predicate FitsLimit(frame: RadioFrame) {
    |frame.body| <= MAXIMUM_BODY_SIZE
  }

  predicate AllFit(frames: seq<RadioFrame>) {
    forall i :: 0 <= i < |frames| ==> FitsLimit(frames[i])
  }

  /** The frame as it is before the capture clock stamps it. */
  function Unstamped(frame: RadioFrame): RadioFrame {
    frame.(captureTime := 0)
  }

  function ClassifyWfbPacket(frame: RadioFrame): WfbPacketType {
    if frame.body == [] || frame.source[0] != 0x57 || frame.source[1] != 0x42 then UnknownPacket
    else if frame.body[0] == 1 then DataPacket
    else if frame.body[0] == 2 then SessionPacket
    else UnknownPacket
  }
}
