/** Writing and reading points through every layer: parser, planner, codecs, frames, PLC memory. */
module PointLaws {
  import opened Bytes
  import opened Types
  import opened Decoder
  import opened Address
  import opened Planner
  import opened Plc
  import opened Exchange
  import opened Scheduler
  import opened BatchLaws
  import opened WriteLaws

  // ----- which successful writes read back -----

  /** A string-form address with a numeric type is written as a number and read as text. */
  lemma StringFormReadsText(mem: Memory, link: Link, m: Member)
    requires m.parsed.isString && !m.parsed.isBit && !m.point.dataType.BIT?
    ensures var r := AloneReading(mem, link, m); r.Good? ==> r.value.VString?
  {
  }

  /** A successfully written number reads back as itself exactly when its address is not in string form. */
  lemma NumberReadsBackWhen(mem: Memory, link: Link, conv: FloatConversion, e: Entry, v: Value)
    requires mem.Valid() && Transparent(link) && Usable(e) && !e.parsed.value.isBit && Typed(v, e.point.dataType)
    requires Written(mem, link, conv, e, v).1.None?
    ensures AloneReading(Written(mem, link, conv, e, v).0, link, MemberOf(e)) == Good(v)
      <==> !e.parsed.value.isString
  {
    if e.parsed.value.isString {
      StringFormReadsText(Written(mem, link, conv, e, v).0, link, MemberOf(e));
    } else {
      TypedValueReadsBack(mem, link, conv, e, v);
    }
  }

  /** The words that go out for plain text: a 16-bit count. */
  function PlainWords(text: seq<byte>): nat { FieldWords(|text|) }

  /** The bytes of it that arrive in memory. */
  function Kept(text: seq<byte>): (kept: seq<byte>)
    ensures kept <= text
  {
    if |text| < 2 * PlainWords(text) then text else text[..2 * PlainWords(text)]
  }

  /** All of the text arrives exactly while its word count fits 16 bits. */
  lemma KeptWhole(text: seq<byte>)
    ensures Kept(text) == text <==> |text| <= 131070
  {
  }

  /** One word: what was written of it, the rest as before. */
  function FirstTwo(text: seq<byte>, word: seq<byte>): (r: seq<byte>)
    requires |word| == 2
    ensures |r| == 2
  {
    [if |text| > 0 then text[0] else word[0], if |text| > 1 then text[1] else word[1]]
  }

  predicate PlainText(e: Entry) {
    && e.parsed.Some? && e.point.dataType.STRING?
    && !e.parsed.value.isBit && !e.parsed.value.isString && e.parsed.value.stringLen == 0
  }

  /** The word a plain point reads. */
  function OwnWord(mem: Memory, e: Entry): (r: Option<seq<byte>>)
    requires mem.Valid() && e.parsed.Some?
    ensures r.Some? ==> |r.value| == 2
  {
    WordSlice(mem, e.parsed.value.areaCode, e.parsed.value.address % 65536, 1)
  }

  lemma OverwrittenWord(bytes: seq<byte>, start: nat, count: nat, text: seq<byte>)
    requires count == PlainWords(text) && 2 * (start + count) <= |bytes| && 2 * (start + 1) <= |bytes|
    ensures Overwrite(bytes, 2 * start, 2 * (start + count), text)[2 * start..2 * (start + 1)]
         == FirstTwo(Kept(text), bytes[2 * start..2 * (start + 1)])
  {
    var r, n := Overwrite(bytes, 2 * start, 2 * (start + count), text), 2 * start;
    var word := bytes[n..2 * (start + 1)];
    var f := FirstTwo(Kept(text), word);
    assert word[0] == bytes[n] && word[1] == bytes[n + 1];
    assert r[n] == f[0] && r[n + 1] == f[1];
    assert r[n..2 * (start + 1)] == [r[n], r[n + 1]];
  }

  lemma PutWordsWord(mem: Memory, code: byte, start: u16, text: seq<byte>)
    requires mem.Valid() && PutWords(mem, code, start, PlainWords(text), text).Some?
    ensures var before, after := WordSlice(mem, code, start, 1),
                                 WordSlice(PutWords(mem, code, start, PlainWords(text), text).value, code, start, 1);
      && (before.Some? <==> after.Some?)
      && (before.Some? ==> |before.value| == 2 && after.value == FirstTwo(Kept(text), before.value))
  {
    var id, count := WordAreaOf(code).value, PlainWords(text);
    GetPut(mem, id, Overwrite(mem.Get(id), 2 * start, 2 * (start + count), text), id);
    if WordSlice(mem, code, start, 1).Some? {
      OverwrittenWord(mem.Get(id), start, count, text);
    }
  }

  lemma OneWordText(m: Member, data: seq<byte>)
    requires !IsBitPoint(m) && !m.parsed.isString && m.parsed.stringLen == 0 && m.point.dataType.STRING?
    requires |data| == 2
    ensures ReadingOf(SingleGroup(m), GroupedPoint(m, 0), Some(data)) == Good(VString(CutNul(data)))
  {
    assert data[0..2] == data && data[..2] == data && data[..|data|] == data;
  }

  lemma PlainEncoding(conv: FloatConversion, e: Entry, text: seq<byte>)
    requires PlainText(e)
    ensures Encoding(conv, e, VString(text)) == Ok(text)
    ensures WriteWordsOf(MemberOf(e), text) == (PlainWords(text), text)
  {
    assert Pad(text, |text|) == text;
  }

  lemma PlainSlice(mem: Memory, e: Entry)
    requires mem.Valid() && PlainText(e)
    ensures !IsBitPoint(MemberOf(e)) && GroupSlice(mem, SingleGroup(MemberOf(e))) == OwnWord(mem, e)
  {
  }

  /** A plain text point reads as its one word. */
  lemma PlainReading(mem: Memory, link: Link, e: Entry)
    requires mem.Valid() && Transparent(link) && Usable(e) && PlainText(e)
    ensures AloneReading(mem, link, MemberOf(e))
      == match OwnWord(mem, e) case None => Bad case Some(word) => Good(VString(CutNul(word)))
  {
    AloneIsDirect(mem, link, MemberOf(e));
    PlainSlice(mem, e);
    if OwnWord(mem, e).Some? {
      OneWordText(MemberOf(e), OwnWord(mem, e).value);
    }
  }

  /** What a successful write of plain text leaves in memory. */
  lemma PlainWrite(mem: Memory, link: Link, conv: FloatConversion, e: Entry, text: seq<byte>)
    requires mem.Valid() && Transparent(link) && Usable(e) && PlainText(e) && ShortText(VString(text))
    ensures var w := Written(mem, link, conv, e, VString(text));
      var put := PutWords(mem, e.parsed.value.areaCode, e.parsed.value.address % 65536, PlainWords(text), text);
      (w.1.None? <==> put.Some?) && w.0 == if put.Some? then put.value else mem
  {
    WrittenIsDirect(mem, link, conv, e, VString(text));
    PlainEncoding(conv, e, text);
  }

  /**
   * Text written to a plain address reads back as one word of what was kept of it, cut at its
   * first NUL; where that is shorter than the word, what was in memory before shows through.
   * Empty text written just past the end of an area succeeds and reads as Bad.
   */
  lemma PlainTextReadsBack(mem: Memory, link: Link, conv: FloatConversion, e: Entry, text: seq<byte>)
    requires mem.Valid() && Transparent(link) && Usable(e) && PlainText(e) && ShortText(VString(text))
    requires Written(mem, link, conv, e, VString(text)).1.None?
    ensures AloneReading(Written(mem, link, conv, e, VString(text)).0, link, MemberOf(e))
      == match OwnWord(mem, e)
         case None => Bad
         case Some(word) => Good(VString(CutNul(FirstTwo(Kept(text), word))))
  {
    PlainWrite(mem, link, conv, e, text);
    var code, start := e.parsed.value.areaCode, e.parsed.value.address % 65536;
    PutWordsWord(mem, code, start, text);
    PlainReading(PutWords(mem, code, start, PlainWords(text), text).value, link, e);
  }

  lemma WordIsText(text: seq<byte>, word: seq<byte>)
    requires |word| == 2
    ensures CutNul(FirstTwo(Kept(text), word)) == text
      <==> |text| <= 2 && 0 !in text && (|text| < 2 ==> word[|text|] == 0)
  {
    var two := FirstTwo(Kept(text), word);
    CutNulIdentity(two);
    assert two == [two[0]] + [two[1]] && two[1..] == [two[1]];
    assert [two[1]][1..] == [];
    assert CutNul(two) == if two[0] == 0 then [] else if two[1] == 0 then [two[0]] else [two[0], two[1]];
    if |text| <= 2 {
      KeptWhole(text);
    }
  }

  /** Plain text reads back as itself exactly when it has at most two bytes, no NUL, and a NUL behind it. */
  lemma PlainTextReadsBackWhen(mem: Memory, link: Link, conv: FloatConversion, e: Entry, text: seq<byte>)
    requires mem.Valid() && Transparent(link) && Usable(e) && PlainText(e) && ShortText(VString(text))
    requires Written(mem, link, conv, e, VString(text)).1.None?
    ensures AloneReading(Written(mem, link, conv, e, VString(text)).0, link, MemberOf(e)) == Good(VString(text))
      <==> && OwnWord(mem, e).Some? && |text| <= 2 && 0 !in text
           && (|text| < 2 ==> OwnWord(mem, e).value[|text|] == 0)
  {
    PlainTextReadsBack(mem, link, conv, e, text);
    if OwnWord(mem, e).Some? {
      WordIsText(text, OwnWord(mem, e).value);
    }
  }

  /** A text whose 16-bit word count wraps to zero is reported as written and stored nowhere. */
  lemma LostText(mem: Memory, link: Link, conv: FloatConversion, e: Entry, text: seq<byte>)
    requires mem.Valid() && Transparent(link) && Usable(e) && PlainText(e) && ShortText(VString(text))
    requires |text| % 131072 == 0 || |text| % 131072 == 131071
    requires WordAreaOf(e.parsed.value.areaCode).Some?
    requires e.parsed.value.address % 65536 <= AreaWords(WordAreaOf(e.parsed.value.areaCode).value)
    ensures Kept(text) == [] && Written(mem, link, conv, e, VString(text)) == (mem, None)
  {
    NoFieldWords(|text|);
    PlainWrite(mem, link, conv, e, text);
    var id, start := WordAreaOf(e.parsed.value.areaCode).value, e.parsed.value.address % 65536;
    NothingWritten(mem, id, 2 * start, text);
  }

  // ----- the whole driver -----

  /** The value a successful write of `v` leaves behind for the reader. */
  function Stored(conv: FloatConversion, t: DataType, a: ParsedAddress, v: Value): Value
    requires EncodeValue(conv, v, t, a).Ok? && (a.isBit || DataTypeSize(t) > 0 || a.isString)
  {
    if a.isBit then v
    else if DataTypeSize(t) > 0 then NumberValue(t, Unsigned(NumberOf(conv, v, t).value, DataTypeSize(t)))
    else VString(CutNul(Truncated(v.text, a.stringLen)))
  }

  /** Typed values, bits and text that fits without a NUL are stored as they are. */
  lemma StoredAsIs(conv: FloatConversion, t: DataType, a: ParsedAddress, v: Value)
    requires EncodeValue(conv, v, t, a).Ok? && (a.isBit || DataTypeSize(t) > 0 || a.isString)
    requires a.isBit || Typed(v, t) || (DataTypeSize(t) == 0 && |v.text| <= a.stringLen && 0 !in v.text)
    ensures Stored(conv, t, a, v) == v
  {
    if a.isBit {
    } else if DataTypeSize(t) > 0 {
      NumberRoundTrip(conv, v, t);
    } else {
      CutNulIdentity(v.text);
    }
  }

  /** Data type and address form go together: the condition under which a write reads back. */
  predicate Coherent(t: DataType, a: ParsedAddress) {
    a.isBit || (DataTypeSize(t) > 0 && !a.isString) || (t.STRING? && a.isString)
  }

  lemma EntryReadsBack(mem: Memory, link: Link, conv: FloatConversion, e: Entry, v: Value)
    requires mem.Valid() && Transparent(link) && Usable(e) && ShortText(v) && Planner.Fits(MemberOf(e))
    requires e.parsed.value.isString ==> e.parsed.value.stringLen > 0
    requires Coherent(e.point.dataType, e.parsed.value) && Written(mem, link, conv, e, v).1.None?
    ensures EncodeValue(conv, v, e.point.dataType, e.parsed.value).Ok?
    ensures AloneReading(Written(mem, link, conv, e, v).0, link, MemberOf(e))
         == Good(Stored(conv, e.point.dataType, e.parsed.value, v))
  {
    var a := e.parsed.value;
    if a.isBit {
      assert v == VBool(v.b);
      BitReadsBack(mem, link, conv, e, v.b);
    } else if DataTypeSize(e.point.dataType) > 0 {
      NumberReadsBack(mem, link, conv, e, v);
    } else {
      assert v == VString(v.text);
      TextReadsBack(mem, link, conv, e, v.text);
      FieldLength(MemberOf(e));
      FieldHoldsTextWhen(a.stringLen);
    }
  }

  lemma PointIsUsable(p: Point)
    requires EntryOf(p).parsed.Some?
    requires EntryOf(p).parsed.value.isString && !EntryOf(p).parsed.value.isBit ==> EntryOf(p).parsed.value.stringLen < 131072
    ensures Usable(EntryOf(p)) && EntryOf(p).point == p
    ensures EntryOf(p).parsed.value.isString ==> EntryOf(p).parsed.value.stringLen > 0
  {
    ParseIsWellFormed(p.address);
  }

  /** What a batch returns for one of its points, under any plan. */
  ghost predicate BatchGives(points: seq<Point>, limit: int, mem: Memory, link: Link, id: string, r: Reading) {
    forall order, lists, groups :: IsPlan(Entries(points), limit, order, lists, groups) ==>
      var results := BatchResults(points, groups, MemorySource(mem, link));
      id in results && results[id] == r
  }

  lemma BatchGivesAlone(points: seq<Point>, limit: int, mem: Memory, link: Link, j: nat, e: Entry)
    requires DistinctIds(Entries(points)) && WordCodes(Entries(points)) && AllInRange(Entries(points))
    requires AllFit(AllMembers(Entries(points))) && limit < 65536 && mem.Valid() && Transparent(link)
    requires j < |points| && Entries(points)[j] == e && e.parsed.Some? && BatchSafe(MemberOf(e), limit)
    ensures BatchGives(points, limit, mem, link, e.point.id, AloneReading(mem, link, MemberOf(e)))
  {
    forall order, lists, groups | IsPlan(Entries(points), limit, order, lists, groups)
      ensures var results := BatchResults(points, groups, MemorySource(mem, link));
        e.point.id in results && results[e.point.id] == AloneReading(mem, link, MemberOf(e))
    {
      EntryRefines(Entries(points), limit, order, lists, groups, mem, link, j);
    }
  }

  lemma CoherentIsSafe(m: Member, limit: int)
    requires Coherent(m.point.dataType, m.parsed)
    ensures BatchSafe(m, limit)
  {
  }

  lemma FieldLength(m: Member)
    requires Coherent(m.point.dataType, m.parsed) && Planner.Fits(m) && m.parsed.isString && !m.parsed.isBit
    ensures m.point.dataType.STRING? && m.parsed.stringLen <= 131070
  {
  }

  lemma FitsAt(entries: seq<Entry>, j: nat, e: Entry)
    requires j < |entries| && entries[j] == e && e.parsed.Some? && AllFit(AllMembers(entries))
    ensures Planner.Fits(MemberOf(e))
  {
    InAllMembers(entries, MemberOf(e));
    assert e == Entry(MemberOf(e).point, Some(MemberOf(e).parsed));
  }

  lemma WriteThenReadEntry(points: seq<Point>, limit: int, mem: Memory, link: Link, conv: FloatConversion, j: nat, e: Entry, v: Value)
    requires mem.Valid() && Transparent(link) && limit < 65536
    requires DistinctIds(Entries(points)) && WordCodes(Entries(points)) && AllInRange(Entries(points))
    requires AllFit(AllMembers(Entries(points))) && ShortText(v) && Usable(e) && Planner.Fits(MemberOf(e))
    requires j < |points| && Entries(points)[j] == e && (e.parsed.value.isString ==> e.parsed.value.stringLen > 0)
    requires Coherent(e.point.dataType, e.parsed.value) && Written(mem, link, conv, e, v).1.None?
    ensures EncodeValue(conv, v, e.point.dataType, e.parsed.value).Ok?
    ensures BatchGives(points, limit, Written(mem, link, conv, e, v).0, link, e.point.id,
                       Good(Stored(conv, e.point.dataType, e.parsed.value, v)))
  {
    EntryReadsBack(mem, link, conv, e, v);
    WrittenIsDirect(mem, link, conv, e, v);
    CoherentIsSafe(MemberOf(e), limit);
    BatchGivesAlone(points, limit, Written(mem, link, conv, e, v).0, link, j, e);
  }

  /**
   * Write then read, end to end: after a successful write of one point over the wire, a batch read
   * of any points in range, under every plan, returns for that point the value stored.
   */
  lemma WriteThenBatchRead(points: seq<Point>, limit: int, mem: Memory, route: Route, conv: FloatConversion, j: nat, e: Entry, v: Value)
    requires mem.Valid() && limit < 65536 && DistinctPointIds(points)
    requires AllFit(AllMembers(Entries(points))) && AllInRange(Entries(points)) && ShortText(v)
    requires j < |points| && e == EntryOf(points[j]) && e.parsed.Some?
    requires Coherent(points[j].dataType, e.parsed.value)
    requires Written(mem, Wire(route), conv, e, v).1.None?
    ensures EncodeValue(conv, v, points[j].dataType, e.parsed.value).Ok?
    ensures BatchGives(points, limit, Written(mem, Wire(route), conv, e, v).0, Wire(route), points[j].id,
                       Good(Stored(conv, points[j].dataType, e.parsed.value, v)))
  {
    WireIsTransparent(route);
    EntriesFacts(points);
    EntryAt(points, j);
    FitsAt(Entries(points), j, e);
    if e.parsed.value.isString && !e.parsed.value.isBit {
      FieldLength(MemberOf(e));
    }
    PointIsUsable(points[j]);
    WriteThenReadEntry(points, limit, mem, Wire(route), conv, j, e, v);
  }

  /** Every other point whose words the write does not touch reads in the batch as before the write. */
  lemma OthersInBatchUnchanged(points: seq<Point>, limit: int, mem: Memory, route: Route, conv: FloatConversion,
                               written: Entry, v: Value, j: nat)
    requires mem.Valid() && limit < 65536 && DistinctPointIds(points)
    requires AllFit(AllMembers(Entries(points))) && AllInRange(Entries(points)) && ShortText(v) && Usable(written)
    requires j < |points| && Entries(points)[j].parsed.Some? && BatchSafe(MemberOf(Entries(points)[j]), limit)
    requires Written(mem, Wire(route), conv, written, v).1.None? && WordAreaOf(written.parsed.value.areaCode).Some? ==>
      && Encoding(conv, written, v).Ok?
      && var (start, count) := WriteRange(MemberOf(written), Encoding(conv, written, v).value);
      Apart(WordAreaOf(written.parsed.value.areaCode).value, start, count, MemberOf(Entries(points)[j]))
    ensures exists r ::
      && BatchGives(points, limit, mem, Wire(route), Entries(points)[j].point.id, r)
      && BatchGives(points, limit, Written(mem, Wire(route), conv, written, v).0, Wire(route), Entries(points)[j].point.id, r)
  {
    var link, e := Wire(route), Entries(points)[j];
    WireIsTransparent(route);
    EntriesFacts(points);
    OthersUnchanged(mem, link, conv, written, v, MemberOf(e));
    WrittenIsDirect(mem, link, conv, written, v);
    BatchGivesAlone(points, limit, mem, link, j, e);
    BatchGivesAlone(points, limit, Written(mem, link, conv, written, v).0, link, j, e);
  }

  // ----- the same on the scheduler's methods -----

  lemma WrittenIsValid(mem: Memory, route: Route, conv: FloatConversion, e: Entry, v: Value)
    requires mem.Valid()
    ensures Written(mem, Wire(route), conv, e, v).0.Valid()
  {
    WireIsTransparent(route);
  }

  /**
   * A point write and then a batch read, both over the wire: when the write reports no error, the
   * batch returns the stored value for that point. Every request is counted once.
   */
  method WriteAndReadBack(scheduler: PointScheduler, points: seq<Point>, mem: Memory, route: Route,
                          conv: FloatConversion, j: nat, v: Value)
    returns (err: Option<WriteError>, results: map<string, Reading>)
    requires mem.Valid() && scheduler.maxFrameLength < 65536 && DistinctPointIds(points)
    requires AllFit(AllMembers(Entries(points))) && AllInRange(Entries(points)) && ShortText(v)
    requires j < |points| && EntryOf(points[j]).parsed.Some?
    requires Coherent(points[j].dataType, EntryOf(points[j]).parsed.value)
    modifies scheduler`totalRequests, scheduler`successCount, scheduler`failureCount
    ensures results.Keys == Ids(points)
    ensures var a := EntryOf(points[j]).parsed.value;
      err.None? ==>
        && EncodeValue(conv, v, points[j].dataType, a).Ok?
        && points[j].id in results && results[points[j].id] == Good(Stored(conv, points[j].dataType, a, v))
    ensures scheduler.totalRequests - old(scheduler.totalRequests)
         == (scheduler.successCount - old(scheduler.successCount)) + (scheduler.failureCount - old(scheduler.failureCount))
  {
    WireIsTransparent(route);
    WrittenIsValid(mem, route, conv, EntryOf(points[j]), v);
    var after;
    after, err := scheduler.WritePoint(mem, Wire(route), conv, points[j], v);
    MemorySourceIsHonest(after, Wire(route));
    ghost var groups, order, lists;
    results, groups, order, lists := scheduler.ReadPoints(points, MemorySource(after, Wire(route)));
    if err.None? {
      WriteThenBatchRead(points, scheduler.maxFrameLength, mem, route, conv, j, EntryOf(points[j]), v);
    }
  }

  // ----- from the text of an address to the value -----

  /** The area has the words, or the bit, of the point. */
  predicate PlaceExists(m: Member) {
    match WordAreaOf(m.parsed.areaCode)
    case None => false
    case Some(id) =>
      if m.parsed.isBit then m.parsed.address < AreaWords(id) && 0 <= m.parsed.bit <= 15
      else m.parsed.address + Words(m) <= AreaWords(id)
  }

  lemma PlaceFits(m: Member)
    requires PlaceExists(m) && Coherent(m.point.dataType, m.parsed) && (m.parsed.isBit ==> !m.parsed.isString)
    ensures InRange(m) && Planner.Fits(m)
  {
  }

  lemma BitPlace(mem: Memory, m: Member, encoded: seq<byte>)
    requires mem.Valid() && PlaceExists(m) && m.parsed.isBit
    ensures DirectWrite(mem, m, encoded).Some?
  {
    assert m.parsed.address % 65536 == m.parsed.address && m.parsed.bit % 256 == m.parsed.bit;
  }

  lemma NumberPlace(mem: Memory, m: Member, u: nat)
    requires mem.Valid() && PlaceExists(m) && !IsBitPoint(m) && !m.parsed.isString && DataTypeSize(m.point.dataType) > 0
    ensures DirectWrite(mem, m, PutUint(m.parsed, u, DataTypeSize(m.point.dataType))).Some?
  {
    var encoded := PutUint(m.parsed, u, DataTypeSize(m.point.dataType));
    assert WriteWordsOf(m, encoded) == (Words(m), encoded);
  }

  lemma TextPlace(mem: Memory, m: Member, text: seq<byte>)
    requires mem.Valid() && PlaceExists(m) && TextField(m)
    ensures DirectWrite(mem, m, Pad(text, m.parsed.stringLen)).Some?
  {
    FieldData(m, text);
  }

  /** A value that suits the type is written wherever the place exists. */
  lemma ValueIsWritten(mem: Memory, link: Link, conv: FloatConversion, e: Entry, v: Value)
    requires mem.Valid() && Transparent(link) && Usable(e) && ShortText(v) && PlaceExists(MemberOf(e))
    requires e.parsed.value.isString ==> e.parsed.value.stringLen > 0
    requires Coherent(e.point.dataType, e.parsed.value) && Encoding(conv, e, v).Ok?
    ensures Written(mem, link, conv, e, v).1.None?
  {
    var m, t := MemberOf(e), e.point.dataType;
    WrittenIsDirect(mem, link, conv, e, v);
    if m.parsed.isBit {
      BitPlace(mem, m, Encoding(conv, e, v).value);
    } else if DataTypeSize(t) > 0 {
      NumberPlace(mem, m, Unsigned(NumberOf(conv, v, t).value, DataTypeSize(t)));
    } else {
      TextEncoding(conv, e, v.text);
      TextPlace(mem, m, v.text);
    }
  }

  lemma OnlyEntry(p: Point, e: Entry)
    requires EntryOf(p) == e && e.parsed.Some?
    ensures Entries([p]) == [e] && AllMembers([e]) == [Member(e.point, e.parsed.value)]
  {
    assert [e][..0] == [];
  }

  lemma EntryThroughTheDriver(points: seq<Point>, e: Entry, v: Value, mem: Memory, link: Link, conv: FloatConversion, limit: int)
    requires mem.Valid() && Transparent(link) && limit < 65536 && |points| == 1 && Entries(points) == [e] && Usable(e)
    requires AllMembers([e]) == [MemberOf(e)] && ShortText(v) && PlaceExists(MemberOf(e))
    requires e.parsed.value.isString ==> e.parsed.value.stringLen > 0
    requires Coherent(e.point.dataType, e.parsed.value) && Encoding(conv, e, v).Ok?
    ensures Written(mem, link, conv, e, v).1.None?
    ensures BatchGives(points, limit, Written(mem, link, conv, e, v).0, link, e.point.id,
                       Good(Stored(conv, e.point.dataType, e.parsed.value, v)))
  {
    ValueIsWritten(mem, link, conv, e, v);
    PlaceFits(MemberOf(e));
    WriteThenReadEntry(points, limit, mem, link, conv, 0, e, v);
  }

  /**
   * From text to value: for every well-formed address, word, bit or field, written in canonical
   * form with a data type that goes with it, a value of that type is written if the place exists,
   * and a read by that text returns what was stored.
   */
  lemma ValueThroughTheDriver(a: ParsedAddress, t: DataType, v: Value, id: string,
                              mem: Memory, route: Route, conv: FloatConversion, limit: int) returns (p: Point)
    requires mem.Valid() && limit < 65536 && WellFormed(a) && Coherent(t, a) && ShortText(v)
    requires EncodeValue(conv, v, t, a).Ok? && PlaceExists(Member(Point(id, Canonical(a), t), a))
    ensures p == Point(id, Canonical(a), t)
    ensures Written(mem, Wire(route), conv, EntryOf(p), v).1.None?
    ensures BatchGives([p], limit, Written(mem, Wire(route), conv, EntryOf(p), v).0, Wire(route), id,
                       Good(Stored(conv, t, a, v)))
  {
    p := Point(id, Canonical(a), t);
    var e := Entry(p, Some(a));
    CanonicalRoundTrip(a);
    EntryOfText(p, a);
    WireIsTransparent(route);
    OnlyEntry(p, e);
    PlaceFits(MemberOf(e));
    if a.isString && !a.isBit {
      FieldLength(MemberOf(e));
    }
    PointIsUsable(p);
    EntryThroughTheDriver([p], e, v, mem, Wire(route), conv, limit);
  }

  /** In particular every number comes back as it is. */
  lemma NumberThroughTheDriver(a: ParsedAddress, t: DataType, v: Value, id: string,
                               mem: Memory, route: Route, conv: FloatConversion, limit: int) returns (p: Point)
    requires mem.Valid() && limit < 65536 && WellFormed(a) && !a.isBit && !a.isString && Typed(v, t)
    requires PlaceExists(Member(Point(id, Canonical(a), t), a))
    ensures p == Point(id, Canonical(a), t)
    ensures Written(mem, Wire(route), conv, EntryOf(p), v).1.None?
    ensures BatchGives([p], limit, Written(mem, Wire(route), conv, EntryOf(p), v).0, Wire(route), id, Good(v))
  {
    NumberRoundTrip(conv, v, t);
    p := ValueThroughTheDriver(a, t, v, id, mem, route, conv, limit);
    StoredAsIs(conv, t, a, v);
  }
}
