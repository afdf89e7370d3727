/** The two builders that serialise a measurement into a caller's fixed-length
    buffer as an InfluxDB line-protocol record, by a chain of strncpy calls
    and a running uint8_t cursor. The textual forms of the numbers (Arduino's
    String(float), String(uint16_t) and String(float, 1)) are inputs here, and
    so is the configured room name. */
module LineProtocol {
  import opened FixedWidth
  import opened CStrings

  const SiteTag: CString := ",site="
  const SizeTag: CString := ",size="
  const ValueTag: CString := " value="

  /** `<topic>,site=<room> value=<value>` */
  function InfluxLine(topic: CString, room: CString, valStr: CString): (r: CString)
    ensures |r| == |topic| + 6 + |room| + 7 + |valStr|
    ensures r[..|topic|] == topic && r[|r| - |valStr|..] == valStr
  {
    topic + SiteTag + room + ValueTag + valStr
  }

  /** `<topic>,site=<room>,size=<size> value=<value>` */
  function ParticleLine(topic: CString, room: CString, sizeStr: CString, valStr: CString): (r: CString)
    ensures |r| == |topic| + 6 + |room| + 6 + |sizeStr| + 7 + |valStr|
    ensures r[..|topic|] == topic && r[|r| - |valStr|..] == valStr
  {
    topic + SiteTag + room + SizeTag + sizeStr + ValueTag + valStr
  }

  /** createInfluxMessage. The source has no overflow guard: every strncpy
      must start inside the buffer (pos <= len), or `len - pos` turns negative
      and becomes a size_t near 2^32. For a prefix shorter than 256 characters,
      which the firmware's literal topics and 40-byte room guarantee, that is
      exactly the requirement that all but the final value string fit in len
      characters; the uint8_t cursor then never wraps. Under it the buffer's
      first len characters are one strncpy of the whole line, whatever dst held
      before, and nothing from len on is written. */
  method CreateInfluxMessage(dst: array<char>, len: U8, topic: CString, room: CString, valStr: CString)
    requires len <= dst.Length
    requires |topic| + |SiteTag| + |room| + |ValueTag| <= len
    modifies dst
    ensures dst[..len] == StrNCopy(InfluxLine(topic, room, valStr), len)
    ensures dst[len..] == old(dst[len..])
  {
    ghost var start := dst[..];
    var pos: U8 := 0;
    ghost var written: string := "";
    ghost var before := dst[..];
    StrNCpy(dst, pos, topic, ToSizeT(len - pos));
    StrNCpyExtends(before, dst[..], len, pos, ToSizeT(len - pos), written, topic);
    pos := WrapU8(pos + |topic|);
    assert written + topic == topic;
    written := topic;

    before := dst[..];
    StrNCpy(dst, pos, SiteTag, ToSizeT(len - pos));
    StrNCpyExtends(before, dst[..], len, pos, ToSizeT(len - pos), written, SiteTag);
    pos := WrapU8(pos + 6);
    written := written + SiteTag;

    before := dst[..];
    StrNCpy(dst, pos, room, ToSizeT(len - pos));
    StrNCpyExtends(before, dst[..], len, pos, ToSizeT(len - pos), written, room);
    pos := WrapU8(pos + |room|);
    written := written + room;

    before := dst[..];
    StrNCpy(dst, pos, ValueTag, ToSizeT(len - pos));
    StrNCpyExtends(before, dst[..], len, pos, ToSizeT(len - pos), written, ValueTag);
    pos := WrapU8(pos + 7);
    written := written + ValueTag;

    before := dst[..];
    StrNCpy(dst, pos, valStr, ToSizeT(len - pos));
    StrNCpyFinishes(before, dst[..], len, pos, ToSizeT(len - pos), written, valStr,
                    InfluxLine(topic, room, valStr));
    assert dst[len..] == start[len..];
  }

  /** createParticleMessage: the same chain with a `,size=` field. For a
      prefix shorter than 256 characters, every strncpy starts inside the
      buffer exactly when everything but the final value string fits in len
      characters. */
  method CreateParticleMessage(dst: array<char>, len: U8, topic: CString, room: CString,
                               sizeStr: CString, valStr: CString)
    requires len <= dst.Length
    requires |topic| + |SiteTag| + |room| + |SizeTag| + |sizeStr| + |ValueTag| <= len
    modifies dst
    ensures dst[..len] == StrNCopy(ParticleLine(topic, room, sizeStr, valStr), len)
    ensures dst[len..] == old(dst[len..])
  {
    ghost var start := dst[..];
    var pos: U8 := 0;

    ghost var written: string := "";
    ghost var before := dst[..];
    StrNCpy(dst, pos, topic, ToSizeT(len - pos));
    StrNCpyExtends(before, dst[..], len, pos, ToSizeT(len - pos), written, topic);
    pos := WrapU8(pos + |topic|);
    assert written + topic == topic;
    written := topic;

    before := dst[..];
    StrNCpy(dst, pos, SiteTag, ToSizeT(len - pos));
    StrNCpyExtends(before, dst[..], len, pos, ToSizeT(len - pos), written, SiteTag);
    pos := WrapU8(pos + 6);
    written := written + SiteTag;

    before := dst[..];
    StrNCpy(dst, pos, room, ToSizeT(len - pos));
    StrNCpyExtends(before, dst[..], len, pos, ToSizeT(len - pos), written, room);
    pos := WrapU8(pos + |room|);
    written := written + room;

    before := dst[..];
    StrNCpy(dst, pos, SizeTag, ToSizeT(len - pos));
    StrNCpyExtends(before, dst[..], len, pos, ToSizeT(len - pos), written, SizeTag);
    pos := WrapU8(pos + 6);
    written := written + SizeTag;

    before := dst[..];
    StrNCpy(dst, pos, sizeStr, ToSizeT(len - pos));
    StrNCpyExtends(before, dst[..], len, pos, ToSizeT(len - pos), written, sizeStr);
    pos := WrapU8(pos + |sizeStr|);
    written := written + sizeStr;

    before := dst[..];
    StrNCpy(dst, pos, ValueTag, ToSizeT(len - pos));
    StrNCpyExtends(before, dst[..], len, pos, ToSizeT(len - pos), written, ValueTag);
    pos := WrapU8(pos + 7);
    written := written + ValueTag;

    before := dst[..];
    StrNCpy(dst, pos, valStr, ToSizeT(len - pos));
    StrNCpyFinishes(before, dst[..], len, pos, ToSizeT(len - pos), written, valStr,
                    ParticleLine(topic, room, sizeStr, valStr));
    assert dst[len..] == start[len..];
  }
}
