/** The start codes of ITU-T H.264, Annex B. */
module StartCodes {
  import opened Bytes

  const START_CODE: seq<byte> := [0, 0, 0, 1]
  const SHORT_CODE: seq<byte> := [0, 0, 1]
}
