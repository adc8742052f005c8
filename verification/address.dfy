/** Textual point addresses: `CIO0.0`, `D10.20H`, `EM10W100.5`. */
module Address {
  import opened Bytes
  import opened Areas
  import opened Types

  datatype AddressError = InvalidAddress | UnsupportedArea

  // ----- decimal numbers -----

  predicate IsDigit(c: char) { '0' <= c <= '9' }

  predicate AllDigits(s: string) { forall c :: c in s ==> IsDigit(c) }

  function DigitValue(c: char): nat
    requires IsDigit(c)
  {
    (c as int) - ('0' as int)
  }

  function Number(s: string): nat
    requires AllDigits(s)
  {
    if s == [] then 0 else Number(s[..|s| - 1]) * 10 + DigitValue(s[|s| - 1])
  }

  /** The usual decimal notation, without leading zeros. */
  function Decimal(n: nat): (s: string)
    ensures s != [] && AllDigits(s)
  {
    var d := ('0' as int + n % 10) as char;
    if n < 10 then [d] else Decimal(n / 10) + [d]
  }

  lemma {:induction false} DecimalRoundTrip(n: nat)
    ensures Number(Decimal(n)) == n
  {
    var s := Decimal(n);
    if n >= 10 {
      DecimalRoundTrip(n / 10);
      assert s[..|s| - 1] == Decimal(n / 10);
    } else {
      assert s[..|s| - 1] == [];
    }
  }

  const MAX_INT: nat := 0x7fff_ffff_ffff_ffff

  /** strconv.Atoi on a digit string: fails only when the value leaves the int range. */
  function Atoi(s: string): Option<nat>
    requires AllDigits(s)
  {
    if Number(s) <= MAX_INT then Some(Number(s)) else None
  }

  /** Length of the longest digit prefix. */
  function DigitRun(s: string): (n: nat)
    ensures n <= |s|
    ensures AllDigits(s[..n])
    ensures n < |s| ==> !IsDigit(s[n])
  {
    if s == [] || !IsDigit(s[0]) then 0 else 1 + DigitRun(s[1..])
  }

  lemma {:induction false} DigitRunOf(ds: string, t: string)
    requires AllDigits(ds) && (t == [] || !IsDigit(t[0]))
    ensures DigitRun(ds + t) == |ds|
  {
    if ds == [] {
      assert ds + t == t;
    } else {
      assert ds[0] in ds;
      assert (ds + t)[1..] == ds[1..] + t;
      DigitRunOf(ds[1..], t);
    }
  }

  lemma DigitsPrefix(s: string, k: nat)
    requires AllDigits(s) && k <= |s|
    ensures AllDigits(s[..k])
  {
    forall c | c in s[..k] ensures IsDigit(c) {
      assert c in s;
    }
  }

  // ----- normalisation -----

  predicate IsSpace(c: char) {
    || c in {'\t', '\n', '\U{0B}', '\U{0C}', '\r', ' ', '\U{85}', '\U{A0}', '\U{1680}'}
    || '\U{2000}' <= c <= '\U{200A}'
    || c in {'\U{2028}', '\U{2029}', '\U{202F}', '\U{205F}', '\U{3000}'}
  }

  function TrimLeft(s: string): string {
    if s != [] && IsSpace(s[0]) then TrimLeft(s[1..]) else s
  }

  function TrimRight(s: string): string {
    if s != [] && IsSpace(s[|s| - 1]) then TrimRight(s[..|s| - 1]) else s
  }

  /**
   * Upper case, as far as it can produce a character the address grammar knows: the ASCII
   * letters, and the two non-ASCII letters whose upper case is ASCII.
   */
  function UpperChar(c: char): char {
    if 'a' <= c <= 'z' then ((c as int) - 32) as char
    else if c == '\U{131}' then 'I'
    else if c == '\U{17F}' then 'S'
    else c
  }

  function Upper(s: string): (r: string)
    ensures |r| == |s| && forall i :: 0 <= i < |s| ==> r[i] == UpperChar(s[i])
  {
    seq(|s|, i requires 0 <= i < |s| => UpperChar(s[i]))
  }

  function Normalise(s: string): string { Upper(TrimRight(TrimLeft(s))) }

  // ----- the address pattern -----

  /** The four groups the pattern captures. */
  datatype Captures = Captures(area: string, number: string, dot: string, order: string)

  predicate IsCIO(a: string) { |a| == 3 && a[0] == 'C' && a[1] == 'I' && a[2] == 'O' }

  predicate IsLetter(c: char) {
    c == 'W' || c == 'H' || c == 'D' || c == 'A' || c == 'P' || c == 'T' || c == 'C'
  }

  predicate StartsEM(a: string) { |a| >= 3 && a[0] == 'E' && a[1] == 'M' }

  /** EM, digits, and no W. */
  predicate IsBareEM(a: string) { StartsEM(a) && AllDigits(a[2..]) }

  predicate IsMarkedEM(a: string) {
    StartsEM(a) && |a| >= 4 && a[|a| - 1] == 'W' && AllDigits(a[2..|a| - 1])
  }

  predicate IsAreaText(a: string) {
    IsCIO(a) || IsBareEM(a) || IsMarkedEM(a) || (|a| == 1 && IsLetter(a[0]))
  }

  predicate IsOrder(o: string) { |o| == 1 && (o[0] == 'H' || o[0] == 'L') }

  predicate IsTail(number: string, dot: string, order: string) {
    && number != [] && AllDigits(number) && AllDigits(dot)
    && (order == [] || (dot != [] && IsOrder(order)))
  }

  function TailText(number: string, dot: string, order: string): string {
    if dot == [] then number else number + (['.'] + (dot + order))
  }

  /** The text is an instance of the pattern with these groups. */
  predicate Captured(s: string, c: Captures) {
    IsAreaText(c.area) && IsTail(c.number, c.dot, c.order) && s == c.area + TailText(c.number, c.dot, c.order)
  }

  /** Everything after the area: digits, and optionally a dot, digits and a byte order. */
  function MatchTail(area: string, rest: string): (r: Option<Captures>)
    ensures r.Some? ==> r.value.area == area && IsTail(r.value.number, r.value.dot, r.value.order)
    ensures r.Some? ==> rest == TailText(r.value.number, r.value.dot, r.value.order)
  {
    var n := DigitRun(rest);
    var t := rest[n..];
    if n == 0 then None
    else if t == [] then Some(Captures(area, rest[..n], [], []))
    else if t[0] != '.' then None
    else
      var m := DigitRun(t[1..]);
      var u := t[1..][m..];
      if m == 0 then None
      else if u == [] || IsOrder(u) then Some(Captures(area, rest[..n], t[1..][..m], u))
      else None
  }

  /**
   * How many characters the area group takes. An EM area without W takes all its digits but
   * the last, since one digit must remain for the number.
   */
  function AreaLength(s: string): (r: Option<nat>)
    ensures r.Some? ==> r.value <= |s| && IsAreaText(s[..r.value])
  {
    if |s| >= 3 && IsCIO(s[..3]) then Some(3)
    else if StartsEM(s) then
      var n := DigitRun(s[2..]);
      assert s[2..][..n] == s[2..2 + n];
      if n > 0 && 2 + n < |s| && s[2 + n] == 'W' then
        assert s[..3 + n][2..2 + n] == s[2..2 + n];
        Some(3 + n)
      else if n > 1 then
        DigitsPrefix(s[2..2 + n], n - 1);
        assert s[..1 + n][2..] == s[2..2 + n][..n - 1];
        Some(1 + n)
      else None
    else if |s| >= 1 && IsLetter(s[0]) then Some(1)
    else None
  }

  /** Leftmost-first matching of the pattern. */
  function Match(s: string): (r: Option<Captures>)
    ensures r.Some? ==> Captured(s, r.value)
  {
    match AreaLength(s)
    case None => None
    case Some(k) =>
      assert s == s[..k] + s[k..];
      MatchTail(s[..k], s[k..])
  }

  lemma TailIsMatched(area: string, number: string, dot: string, order: string)
    requires IsTail(number, dot, order)
    ensures MatchTail(area, TailText(number, dot, order)) == Some(Captures(area, number, dot, order))
  {
    var rest := TailText(number, dot, order);
    if dot == [] {
      DigitRunOf(number, []);
      assert number + [] == number;
    } else {
      var t := ['.'] + (dot + order);
      DigitRunOf(number, t);
      assert rest[|number|..] == t && rest[..|number|] == number;
      assert t[1..] == dot + order;
      DigitRunOf(dot, order);
    }
  }

  lemma AreaLengthOf(area: string, tail: string)
    requires IsAreaText(area) && !IsBareEM(area)
    requires tail != [] && IsDigit(tail[0])
    ensures AreaLength(area + tail) == Some(|area|)
  {
    var s := area + tail;
    if IsCIO(area) {
      assert s[..3] == area;
    } else if |area| == 1 {
      assert s[0] == area[0] && s[1] == tail[0];
    } else {
      var ds := area[2..|area| - 1];
      assert s[2..] == ds + (['W'] + tail);
      DigitRunOf(ds, ['W'] + tail);
    }
  }

  /** Texts of the pattern other than EM areas without W are captured as written. */
  lemma MatchDecides(c: Captures)
    requires IsAreaText(c.area) && IsTail(c.number, c.dot, c.order) && !IsBareEM(c.area)
    ensures Match(c.area + TailText(c.number, c.dot, c.order)) == Some(c)
  {
    var tail := TailText(c.number, c.dot, c.order);
    assert tail[0] == c.number[0] && c.number[0] in c.number;
    AreaLengthOf(c.area, tail);
    TailIsMatched(c.area, c.number, c.dot, c.order);
    var s := c.area + tail;
    assert s[..|c.area|] == c.area && s[|c.area|..] == tail;
  }

  /** An EM area without W gives up its last digit to the number. */
  lemma MatchBareEM(area: string, digit: char, dot: string, order: string)
    requires IsBareEM(area) && IsTail([digit], dot, order)
    ensures Match(area + TailText([digit], dot, order)) == Some(Captures(area, [digit], dot, order))
  {
    var tail := TailText([digit], dot, order);
    var s := area + tail;
    var ds := area[2..] + [digit];
    var t := tail[1..];
    assert t == if dot == [] then [] else ['.'] + (dot + order);
    assert digit in [digit];
    DigitsJoin(area[2..], [digit]);
    assert s[2..] == ds + t;
    DigitRunOf(ds, t);
    assert AreaLength(s) == Some(|area|);
    TailIsMatched(area, [digit], dot, order);
    assert s[..|area|] == area && s[|area|..] == tail;
  }

  lemma DigitsJoin(a: string, b: string)
    requires AllDigits(a) && AllDigits(b)
    ensures AllDigits(a + b)
  {
  }

  /** Moving digits from the number of a bare EM text to its area does not change the text. */
  lemma BareEMShift(c: Captures)
    requires IsBareEM(c.area) && IsTail(c.number, c.dot, c.order)
    ensures var k := |c.number| - 1;
      && IsBareEM(c.area + c.number[..k]) && IsTail([c.number[k]], c.dot, c.order)
      && c.area + TailText(c.number, c.dot, c.order)
         == c.area + c.number[..k] + TailText([c.number[k]], c.dot, c.order)
  {
    var k := |c.number| - 1;
    assert c.number == c.number[..k] + [c.number[k]] && c.number[k] in c.number;
    DigitsJoin(c.area[2..], c.number[..k]);
    assert (c.area + c.number[..k])[2..] == c.area[2..] + c.number[..k];
  }

  /** The scanner accepts exactly the texts of the pattern. */
  lemma MatchIsThePattern(s: string)
    ensures Match(s).Some? <==> exists c :: Captured(s, c)
  {
    if c :| Captured(s, c) {
      if IsBareEM(c.area) {
        var k := |c.number| - 1;
        BareEMShift(c);
        MatchBareEM(c.area + c.number[..k], c.number[k], c.dot, c.order);
      } else {
        MatchDecides(c);
      }
    }
  }

  // ----- the area table -----

  datatype AreaInfo = AreaInfo(code: byte, supportString: bool)

  /** The key of the area map that a name spells; EM banks are written without leading zeros. */
  function NameOf(text: string): (r: Option<AreaName>)
    ensures r.Some? && r.value.NameEM? ==> r.value.bank <= 15
  {
    if |text| == 1 then LetterName(text[0])
    else if IsCIO(text) then Some(NameCIO)
    else if IsBareEM(text) && Number(text[2..]) <= 15 && Decimal(Number(text[2..])) == text[2..] then
      Some(NameEM(Number(text[2..])))
    else None
  }

  function LetterName(c: char): (r: Option<AreaName>)
    ensures r.Some? ==> !r.value.NameEM? && !r.value.NameCIO?
    ensures r == Some(NameF) ==> !IsLetter(c)
  {
    match c
    case 'W' => Some(NameW)
    case 'H' => Some(NameH)
    case 'A' => Some(NameA)
    case 'D' => Some(NameD)
    case 'P' => Some(NameP)
    case 'F' => Some(NameF)
    case 'T' => Some(NameT)
    case 'C' => Some(NameC)
    case _ => None
  }

  function NameText(n: AreaName): string {
    match n
    case NameCIO => ['C', 'I', 'O']
    case NameW => ['W']
    case NameH => ['H']
    case NameA => ['A']
    case NameD => ['D']
    case NameP => ['P']
    case NameF => ['F']
    case NameT => ['T']
    case NameC => ['C']
    case NameEM(k) => ['E', 'M'] + Decimal(k)
  }

  /** The area map itself; every area in it supports bit access. */
  function Info(n: AreaName): (r: AreaInfo)
    requires n.NameEM? ==> n.bank <= 15
    ensures !n.NameF? ==> IsWordArea(r.code)
  {
    match n
    case NameCIO => AreaInfo(CIO_WORD, true)
    case NameW => AreaInfo(WR_WORD, true)
    case NameH => AreaInfo(HR_WORD, true)
    case NameA => AreaInfo(AR_WORD, true)
    case NameD => AreaInfo(DM_WORD, true)
    case NameP => AreaInfo(PV_WORD, false)
    case NameF => AreaInfo(FLAG_BIT, false)
    case NameT => AreaInfo(TIMER_PV, false)
    case NameC => AreaInfo(COUNTER_PV, false)
    case NameEM(k) => AreaInfo(EM0_WORD + k, true)
  }

  // ----- the parser -----

  /** The map key: an EM area loses its W. */
  function LookupText(area: string): string {
    if StartsEM(area) && area[|area| - 1] == 'W' then area[..|area| - 1] else area
  }

  function ParseAddress(text: string): (r: Result<ParsedAddress, AddressError>) {
    match Match(Normalise(text))
    case None => Err(InvalidAddress)
    case Some(c) =>
      match NameOf(LookupText(c.area))
      case None => Err(UnsupportedArea)
      case Some(name) => ParseNumbers(name, c)
  }

  function ParseNumbers(name: AreaName, c: Captures): (r: Result<ParsedAddress, AddressError>)
    requires name.NameEM? ==> name.bank <= 15
    requires IsTail(c.number, c.dot, c.order)
    ensures r.Ok? && !name.NameF? ==> WellFormed(r.value)
  {
    match Atoi(c.number)
    case None => Err(InvalidAddress)
    case Some(address) =>
      var base := WordAddress(name, address);
      if c.dot == [] then Ok(base)
      else
        match Atoi(c.dot)
        case None => Err(InvalidAddress)
        case Some(dot) =>
          if c.order != [] || (name.NameD? && dot > 15) then
            if !Info(name).supportString || dot == 0 then Err(InvalidAddress)
            else Ok(base.(stringLen := dot, isString := true,
                          byteOrder := if c.order == ['H'] then OrderHigh else OrderLow))
          else if dot <= 15 then Ok(base.(bit := dot, isBit := true))
          else Err(InvalidAddress)
  }

  /** The record of a plain word address. */
  function WordAddress(name: AreaName, address: nat): ParsedAddress
    requires name.NameEM? ==> name.bank <= 15
  {
    ParsedAddress(name, Info(name).code, if name.NameEM? then name.bank else 0, address, -1, 0,
                  OrderHigh, false, false)
  }

  /** What a parsed address can be: a word, a bit 0..15 or a string field, of a word area. */
  predicate WellFormed(a: ParsedAddress) {
    && !a.area.NameF? && (a.area.NameEM? ==> a.area.bank <= 15)
    && a.address <= MAX_INT
    && var w := WordAddress(a.area, a.address);
    if a.isBit then 0 <= a.bit <= 15 && a == w.(bit := a.bit, isBit := true)
    else if a.isString then
      && 0 < a.stringLen <= MAX_INT && Info(a.area).supportString
      && a == w.(stringLen := a.stringLen, byteOrder := a.byteOrder, isString := true)
    else a == w
  }

  lemma AreaNameIsNotFlag(area: string)
    requires IsAreaText(area)
    ensures NameOf(LookupText(area)) != Some(NameF)
  {
  }

  /** Every accepted text gives a well-formed record: word, bit or string, of a word area. */
  lemma ParseIsWellFormed(text: string)
    requires ParseAddress(text).Ok?
    ensures WellFormed(ParseAddress(text).value)
    ensures IsWordArea(ParseAddress(text).value.areaCode)
  {
    var c := Match(Normalise(text)).value;
    AreaNameIsNotFlag(c.area);
  }

  // ----- canonical texts -----

  function AreaText(n: AreaName): string {
    if n.NameEM? then NameText(n) + ['W'] else NameText(n)
  }

  function DotText(a: ParsedAddress): string
    requires a.isBit ==> a.bit >= 0
  {
    if a.isBit then Decimal(a.bit) else if a.isString then Decimal(a.stringLen) else []
  }

  function OrderText(a: ParsedAddress): string {
    if !a.isString then [] else if a.byteOrder.OrderHigh? then ['H'] else ['L']
  }

  /** The text to write an address down with; EM areas carry the W. */
  function Canonical(a: ParsedAddress): string
    requires a.isBit ==> a.bit >= 0
  {
    AreaText(a.area) + TailText(Decimal(a.address), DotText(a), OrderText(a))
  }

  predicate Plain(c: char) { ('A' <= c <= 'Z') || IsDigit(c) || c == '.' }

  predicate AllPlain(s: string) { forall c :: c in s ==> Plain(c) }

  lemma NormaliseKeepsPlain(s: string)
    requires AllPlain(s)
    ensures Normalise(s) == s
  {
    if s != [] {
      assert s[0] in s && s[|s| - 1] in s;
    }
    assert forall i :: 0 <= i < |s| ==> s[i] in s;
    assert Upper(s) == s;
  }

  lemma AreaTextOfName(n: AreaName)
    requires !n.NameF? && (n.NameEM? ==> n.bank <= 15)
    ensures IsAreaText(AreaText(n)) && !IsBareEM(AreaText(n)) && AllPlain(AreaText(n))
    ensures NameOf(LookupText(AreaText(n))) == Some(n)
  {
    if n.NameEM? {
      var t := AreaText(n);
      DecimalRoundTrip(n.bank);
      assert t[2..|t| - 1] == Decimal(n.bank);
      assert t[..|t| - 1][2..] == Decimal(n.bank);
      assert t[2..][|t| - 3] == 'W' && 'W' in t[2..];
    }
  }

  lemma CanonicalMatches(a: ParsedAddress)
    requires WellFormed(a)
    ensures Match(Normalise(Canonical(a)))
         == Some(Captures(AreaText(a.area), Decimal(a.address), DotText(a), OrderText(a)))
  {
    AreaTextOfName(a.area);
    TailIsPlain(Decimal(a.address), DotText(a), OrderText(a));
    PlainJoin(AreaText(a.area), TailText(Decimal(a.address), DotText(a), OrderText(a)));
    NormaliseKeepsPlain(Canonical(a));
    MatchDecides(Captures(AreaText(a.area), Decimal(a.address), DotText(a), OrderText(a)));
  }

  lemma PlainJoin(s: string, t: string)
    requires AllPlain(s) && AllPlain(t)
    ensures AllPlain(s + t)
  {
  }

  lemma TailIsPlain(number: string, dot: string, order: string)
    requires IsTail(number, dot, order)
    ensures AllPlain(TailText(number, dot, order))
  {
    PlainJoin(dot, order);
    PlainJoin(['.'], dot + order);
    PlainJoin(number, ['.'] + (dot + order));
  }

  lemma NumbersOf(a: ParsedAddress, area: string)
    requires WellFormed(a)
    ensures IsTail(Decimal(a.address), DotText(a), OrderText(a))
    ensures ParseNumbers(a.area, Captures(area, Decimal(a.address), DotText(a), OrderText(a))) == Ok(a)
  {
    DecimalRoundTrip(a.address);
    if a.isBit {
      DecimalRoundTrip(a.bit);
    } else if a.isString {
      DecimalRoundTrip(a.stringLen);
    }
  }

  /** Every well-formed record is the parse of its canonical text. */
  lemma CanonicalRoundTrip(a: ParsedAddress)
    requires WellFormed(a)
    ensures ParseAddress(Canonical(a)) == Ok(a)
  {
    CanonicalMatches(a);
    AreaTextOfName(a.area);
    NumbersOf(a, AreaText(a.area));
  }
}
