/** The packet types that carry media, which are also FLV tag types (librtmp/rtmp.h:75-77), and that of aggregates. */
module PacketTypes {
  import opened Bytes

  const AUDIO: byte := 0x08
  const VIDEO: byte := 0x09
  const INFO: byte := 0x12
  const AGGREGATE: byte := 0x16
}
