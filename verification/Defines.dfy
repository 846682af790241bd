/** The constants that several components share. */
module Defines {
  import opened Bytes

  const AID_SIZE: nat := 16

  type Aid = s: seq<byte> | |s| == AID_SIZE witness seq(AID_SIZE, _ => 0)

  const NONCE_CRITICAL_THRESHOLD: nat := 10
  const NOT_SERVED_RE_SCHEDULING_STANDARD_TIME: real := 5.0
  const EMPTY_SQ_LIST_TTS: real := 3600.0
}
