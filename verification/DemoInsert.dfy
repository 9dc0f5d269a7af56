/** `AttachmentLoader.LoadDefaultDemoImages`: the mapping of two keys to one image, which is a parameter. */
module AttachmentLoader {
  import opened Results
  import opened MessagePack

  datatype LoadError = NullKey | FileNotFound | DuplicateEntry

  /** A dictionary initializer adds its entries one by one and throws for a key that it has added before. */
  function LoadDefaultDemoImages(frontHexKey: Option<string>, rearHexKey: Option<string>, image: Option<Bytes>)
    : Result<map<string, Bytes>, LoadError>
  {
    if frontHexKey.None? || rearHexKey.None? then Err(NullKey)
    else if image.None? then Err(FileNotFound)
    else if frontHexKey.value == rearHexKey.value then Err(DuplicateEntry)
    else Ok(map[frontHexKey.value := image.value, rearHexKey.value := image.value])
  }
}

/** What `ListenerImpl.OnConnectionSuccess` builds and sends once it is logged in: ids, keys, statements and mapping. */
module DemoInsert {
  import opened Results
  import opened MessagePack
  import opened StringEscapeUtil
  import opened SqlText
  import opened SqlBuilder
  import SqlInserts
  import SqlBlock
  import opened AttachmentLoader
  import opened HexUtil
  import opened IdGenerator

  const EVENT_SUFFIX := "_EVENT"
  const FRONT_SUFFIX := "_FRONT"
  const REAR_SUFFIX := "_REAR"
  const PLATE := "ABC123"

  datatype BuildError = SqlError(sql: SqlBuilder.Error) | ImageError(load: LoadError)

  /** The statements, and the mapping of keys to binary contents that goes with them. */
  datatype Insert = Insert(block: string, binaries: map<string, Bytes>)

  function EventId(prefix: string, time: Moment): string
    requires ValidMoment(time)
  {
    Generate(prefix, time) + EVENT_SUFFIX
  }

  function FrontImageId(prefix: string, time: Moment): string
    requires ValidMoment(time)
  {
    Generate(prefix, time) + FRONT_SUFFIX
  }

  function RearImageId(prefix: string, time: Moment): string
    requires ValidMoment(time)
  {
    Generate(prefix, time) + REAR_SUFFIX
  }

  /** The clock is read for each id, so the times may differ; the extra data, a constant there, is a parameter. */
  function Build(prefix: string, eventTime: Moment, frontTime: Moment,
                 rearTime: Moment, sourceId: Option<string>, extraData: string, image: Option<Bytes>)
    : Result<Insert, BuildError>
    requires ValidMoment(eventTime) && ValidMoment(frontTime) && ValidMoment(rearTime)
  {
    var eventId := EventId(prefix, eventTime);
    var frontImageId := FrontImageId(prefix, frontTime);
    var rearImageId := RearImageId(prefix, rearTime);
    var frontImageIdHex := ToHexString(Some(frontImageId)).value;
    var rearImageIdHex := ToHexString(Some(rearImageId)).value;
    var block := BuildInsertWithAttachments(Some(eventId), sourceId, Some(PLATE), Escape(Some(extraData)),
                                            Some(frontImageId), Some(frontImageIdHex),
                                            Some(rearImageId), Some(rearImageIdHex));
    if block.Err? then Err(SqlError(block.error))
    else
      var binaries := LoadDefaultDemoImages(Some(frontImageIdHex), Some(rearImageIdHex), image);
      if binaries.Err? then Err(ImageError(binaries.error)) else Ok(Insert(block.value, binaries.value))
  }

  /** Whatever the prefixes and the times, the suffixes keep the keys of the front and of the rear image apart. */
  lemma KeysDiffer(prefix: string, frontTime: Moment, prefix': string, rearTime: Moment)
    requires ValidMoment(frontTime) && ValidMoment(rearTime)
    ensures ToHexString(Some(FrontImageId(prefix, frontTime))) != ToHexString(Some(RearImageId(prefix', rearTime)))
  {
    var front, rear := FrontImageId(prefix, frontTime), RearImageId(prefix', rearTime);
    assert front[|front| - 1] == 'T' && rear[|rear| - 1] == 'R';
    HexIsInjective(front, rear);
  }

  /**
   The insert is built whenever there are a source and an image, whatever the prefix and the times. Its mapping has
   exactly two entries, both of the image, whose keys are the digits of the two image ids and read back as them.
   */
  lemma MappingHasTwoEntries(prefix: string, eventTime: Moment, frontTime: Moment, rearTime: Moment,
                             sourceId: Option<string>, extraData: string, image: Option<Bytes>)
    returns (frontKey: string, rearKey: string)
    requires ValidMoment(eventTime) && ValidMoment(frontTime) && ValidMoment(rearTime)
    ensures FromHexString(frontKey) == Some(FrontImageId(prefix, frontTime))
    ensures FromHexString(rearKey) == Some(RearImageId(prefix, rearTime))
    ensures frontKey != rearKey
    ensures
      var r := Build(prefix, eventTime, frontTime, rearTime, sourceId, extraData, image);
      && (r.Ok? <==> sourceId.Some? && image.Some?)
      && (r.Ok? ==> r.value.binaries == map[frontKey := image.value, rearKey := image.value])
  {
    hide EventId, FrontImageId, RearImageId, FromHexString;
    var front, rear := FrontImageId(prefix, frontTime), RearImageId(prefix, rearTime);
    frontKey, rearKey := ToHexString(Some(front)).value, ToHexString(Some(rear)).value;
    KeysDiffer(prefix, frontTime, prefix, rearTime);
    HexStringExactly(front, frontKey);
    HexStringExactly(rear, rearKey);
  }

  lemma SuffixesArePlain()
    ensures Plain(EVENT_SUFFIX) && Plain(FRONT_SUFFIX) && Plain(REAR_SUFFIX) && Plain(PLATE)
  {
  }

  lemma IdIsPlain(prefix: string, time: Moment, suffix: string)
    requires ValidMoment(time) && Plain(suffix)
    ensures Plain(Generate(prefix, time) + suffix) <==> Plain(prefix)
  {
    FormatIsStamp(time);
    DigitsAreDigits(Stamp(time), 15);
    hide Format, Stamp, Digits;
    assert forall c :: c in prefix ==> c in Generate(prefix, time) + suffix;
  }

  /** The block is built from the digits of the two image ids. */
  lemma BlockUsesKeys(prefix: string, eventTime: Moment, frontTime: Moment, rearTime: Moment,
                      sourceId: string, extraData: string, image: Bytes)
    requires ValidMoment(eventTime) && ValidMoment(frontTime) && ValidMoment(rearTime)
    ensures
      var r := Build(prefix, eventTime, frontTime, rearTime, Some(sourceId), extraData, Some(image));
      var front, rear := FrontImageId(prefix, frontTime), RearImageId(prefix, rearTime);
      r.Ok? ==>
        Ok(r.value.block) == BuildInsertWithAttachments(
          Some(EventId(prefix, eventTime)), Some(sourceId), Some(PLATE), Escape(Some(extraData)),
          Some(front), Some(ToHexString(Some(front)).value), Some(rear), Some(ToHexString(Some(rear)).value))
  {
    hide BuildInsertWithAttachments, EventId, FrontImageId, RearImageId, Escape, ToHexString;
  }

  /**
   The mapping has exactly the keys of the two images. Whatever the extra data, the block is three complete statements
   whose string literals are the ids, the source, the plate and the extra data, and whose hexadecimal literals are those
   keys, if and only if neither the prefix nor the source holds a quote or a backslash; and exactly then each of them is
   stored in the column that it belongs to.
   */
  lemma BlockMatchesMapping(prefix: string, eventTime: Moment, frontTime: Moment, rearTime: Moment,
                            sourceId: string, extraData: string, image: Bytes)
    returns (frontKey: string, rearKey: string)
    requires ValidMoment(eventTime) && ValidMoment(frontTime) && ValidMoment(rearTime)
    ensures
      var r := Build(prefix, eventTime, frontTime, rearTime, Some(sourceId), extraData, Some(image));
      var event := Generate(prefix, eventTime) + "_EVENT";
      var front, rear := Generate(prefix, frontTime) + "_FRONT", Generate(prefix, rearTime) + "_REAR";
      && r.Ok?
      && (SqlInserts.Inserts(r.value.block)
            == Some(SqlBlock.Stored(event, sourceId, "ABC123", extraData, front, frontKey, rear, rearKey))
          <==> Plain(prefix) && Plain(sourceId))
      && (Holds(r.value.block, Arguments(event, sourceId, "ABC123", extraData, front, frontKey, rear, rearKey))
          <==> Plain(prefix) && Plain(sourceId))
      && r.value.binaries.Keys == {frontKey, rearKey} && frontKey != rearKey
  {
    var event := Generate(prefix, eventTime) + "_EVENT";
    var front, rear := Generate(prefix, frontTime) + "_FRONT", Generate(prefix, rearTime) + "_REAR";
    SuffixesArePlain();
    IdIsPlain(prefix, eventTime, EVENT_SUFFIX);
    IdIsPlain(prefix, frontTime, FRONT_SUFFIX);
    IdIsPlain(prefix, rearTime, REAR_SUFFIX);
    IdsHaveSuffixes(prefix, eventTime, frontTime, rearTime);
    hide *;
    frontKey, rearKey :=
      MappingHasTwoEntries(prefix, eventTime, frontTime, rearTime, Some(sourceId), extraData, Some(image));
    HexStringExactly(front, frontKey);
    HexStringExactly(rear, rearKey);
    BlockUsesKeys(prefix, eventTime, frontTime, rearTime, sourceId, extraData, image);
    var block := Build(prefix, eventTime, frontTime, rearTime, Some(sourceId), extraData, Some(image)).value.block;
    BlockMeans(event, sourceId, extraData, front, frontKey, rear, rearKey, block);
  }

  lemma IdsHaveSuffixes(prefix: string, eventTime: Moment, frontTime: Moment, rearTime: Moment)
    requires ValidMoment(eventTime) && ValidMoment(frontTime) && ValidMoment(rearTime)
    ensures EventId(prefix, eventTime) == Generate(prefix, eventTime) + "_EVENT"
    ensures FrontImageId(prefix, frontTime) == Generate(prefix, frontTime) + "_FRONT"
    ensures RearImageId(prefix, rearTime) == Generate(prefix, rearTime) + "_REAR"
    ensures EVENT_SUFFIX == "_EVENT" && FRONT_SUFFIX == "_FRONT" && REAR_SUFFIX == "_REAR"
  {
  }

  /** What the block says of plain ids and keys that are digits. */
  lemma BlockMeans(event: string, sourceId: string, extraData: string, front: string, frontKey: string,
                   rear: string, rearKey: string, block: string)
    requires (forall c :: c in frontKey ==> IsHexDigit(c)) && forall c :: c in rearKey ==> IsHexDigit(c)
    requires BuildInsertWithAttachments(Some(event), Some(sourceId), Some("ABC123"), Escape(Some(extraData)),
                                        Some(front), Some(frontKey), Some(rear), Some(rearKey)) == Ok(block)
    ensures
      var plain := Plain(event) && Plain(sourceId) && Plain("ABC123") && Plain(front) && Plain(rear);
      && (SqlInserts.Inserts(block)
            == Some(SqlBlock.Stored(event, sourceId, "ABC123", extraData, front, frontKey, rear, rearKey))
          <==> plain)
      && (Holds(block, Arguments(event, sourceId, "ABC123", extraData, front, frontKey, rear, rearKey)) <==> plain)
  {
    hide BuildInsertWithAttachments, IsHexDigit, Plain, Escape, Holds, Arguments, SqlInserts.Inserts;
    SqlBlock.BlockStoresExactly(event, sourceId, "ABC123", extraData, front, frontKey, rear, rearKey);
    BlockHasThreeStatements(event, sourceId, "ABC123", extraData, front, frontKey, rear, rearKey);
  }
}
