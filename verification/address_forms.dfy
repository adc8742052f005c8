/**
 * Every form of an address text and what it parses to, stated on the text: the area letters, the
 * numbers in decimal, the dot and the byte order, upper or lower case, with spaces around.
 */
module AddressForms {
  import opened Bytes
  import opened Areas
  import opened Types
  import opened Address
  import opened Plc

  /** `<area><number>`, and `.<dot>` and the order letter where given. */
  function FormText(name: AreaName, number: nat, dot: Option<nat>, order: string): string {
    AreaText(name) + TailText(Decimal(number), if dot.Some? then Decimal(dot.value) else [], order)
  }

  predicate Named(name: AreaName) { !name.NameF? && (name.NameEM? ==> name.bank <= 15) }

  lemma FormParses(name: AreaName, number: nat, dot: Option<nat>, order: string)
    requires Named(name) && (order == [] || (dot.Some? && IsOrder(order)))
    ensures var c := Captures(AreaText(name), Decimal(number), if dot.Some? then Decimal(dot.value) else [], order);
      IsTail(c.number, c.dot, c.order) && ParseAddress(FormText(name, number, dot, order)) == ParseNumbers(name, c)
  {
    var c := Captures(AreaText(name), Decimal(number), if dot.Some? then Decimal(dot.value) else [], order);
    AreaTextOfName(name);
    TailIsPlain(c.number, c.dot, c.order);
    PlainJoin(AreaText(name), TailText(c.number, c.dot, c.order));
    NormaliseKeepsPlain(FormText(name, number, dot, order));
    MatchDecides(c);
  }

  /** A number alone is a word address, as long as it fits an int. */
  lemma WordForm(name: AreaName, number: nat)
    requires Named(name)
    ensures ParseAddress(FormText(name, number, None, []))
         == if number <= MAX_INT then Ok(WordAddress(name, number)) else Err(InvalidAddress)
  {
    FormParses(name, number, None, []);
    DecimalRoundTrip(number);
  }

  /** A dot and a number up to 15 name a bit, in every area; above 15 a string field in the low order in D, and nothing elsewhere. */
  lemma DotForm(name: AreaName, number: nat, dot: nat)
    requires Named(name) && number <= MAX_INT && dot <= MAX_INT
    ensures ParseAddress(FormText(name, number, Some(dot), [])) ==
      if dot <= 15 then Ok(WordAddress(name, number).(bit := dot, isBit := true))
      else if name == NameD then Ok(WordAddress(NameD, number).(stringLen := dot, isString := true, byteOrder := OrderLow))
      else Err(InvalidAddress)
  {
    FormParses(name, number, Some(dot), []);
    DecimalRoundTrip(number);
    DecimalRoundTrip(dot);
  }

  /** The areas that hold strings: all but counters, timers and present values. */
  predicate HoldsStrings(name: AreaName) { name in {NameCIO, NameW, NameH, NameA, NameD} || name.NameEM? }

  /** What an order letter makes of the numbers. */
  function OrderResult(name: AreaName, number: nat, dot: nat, high: bool): Result<ParsedAddress, AddressError>
    requires Named(name)
  {
    if HoldsStrings(name) && dot > 0 then
      Ok(WordAddress(name, number).(stringLen := dot, isString := true, byteOrder := if high then OrderHigh else OrderLow))
    else Err(InvalidAddress)
  }

  lemma OrderNumbers(name: AreaName, c: Captures, number: nat, dot: nat, high: bool)
    requires Named(name) && number <= MAX_INT && dot <= MAX_INT && IsTail(c.number, c.dot, c.order) && c.dot != []
    requires Number(c.number) == number && Number(c.dot) == dot && c.order == if high then ['H'] else ['L']
    ensures ParseNumbers(name, c) == OrderResult(name, number, dot, high)
  {
  }

  /** With an order letter it is a string field of that length and order, where the area holds strings and the length is positive. */
  lemma OrderForm(name: AreaName, number: nat, dot: nat, high: bool, order: string)
    requires Named(name) && number <= MAX_INT && dot <= MAX_INT && order == if high then ['H'] else ['L']
    ensures ParseAddress(FormText(name, number, Some(dot), order)) == OrderResult(name, number, dot, high)
  {
    FormParses(name, number, Some(dot), order);
    DecimalRoundTrip(number);
    DecimalRoundTrip(dot);
    OrderNumbers(name, Captures(AreaText(name), Decimal(number), Decimal(dot), order), number, dot, high);
  }

  /** EM banks above 15 are no area. */
  lemma UnknownBank(bank: nat, number: nat)
    requires bank > 15
    ensures ParseAddress(FormText(NameEM(bank), number, None, [])) == Err(UnsupportedArea)
  {
    var c := Captures(AreaText(NameEM(bank)), Decimal(number), [], []);
    MarkedBank(bank);
    TailIsPlain(c.number, c.dot, c.order);
    PlainJoin(c.area, TailText(c.number, c.dot, c.order));
    NormaliseKeepsPlain(FormText(NameEM(bank), number, None, []));
    MatchDecides(c);
  }

  lemma MarkedBank(bank: nat)
    ensures var t := AreaText(NameEM(bank));
      && IsAreaText(t) && !IsBareEM(t) && AllPlain(t)
      && LookupText(t) == ['E', 'M'] + Decimal(bank)
      && (bank > 15 ==> NameOf(LookupText(t)) == None)
  {
    var t := AreaText(NameEM(bank));
    DecimalRoundTrip(bank);
    assert t[2..|t| - 1] == Decimal(bank);
    assert t[..|t| - 1][2..] == Decimal(bank);
    assert t[2..][|t| - 3] == 'W' && 'W' in t[2..];
    assert (['E', 'M'] + Decimal(bank))[2..] == Decimal(bank);
  }

  /** An EM address without W ends in a one-digit number: `EM123` is word 3 of bank 12. */
  lemma BareEMForm(bank: nat, digit: nat)
    requires bank <= 15 && digit <= 9
    ensures ParseAddress(['E', 'M'] + Decimal(bank) + Decimal(digit)) == Ok(WordAddress(NameEM(bank), digit))
  {
    BareMatch(bank, digit);
    BareName(bank);
    DecimalRoundTrip(digit);
  }

  lemma BareName(bank: nat)
    requires bank <= 15
    ensures var area := ['E', 'M'] + Decimal(bank);
      IsBareEM(area) && LookupText(area) == area && NameOf(area) == Some(NameEM(bank))
  {
    var area := ['E', 'M'] + Decimal(bank);
    DecimalRoundTrip(bank);
    assert area[2..] == Decimal(bank);
    assert area[|area| - 1] == Decimal(bank)[|Decimal(bank)| - 1] && area[|area| - 1] in Decimal(bank);
  }

  lemma BareMatch(bank: nat, digit: nat)
    requires bank <= 15 && digit <= 9
    ensures var area, text := ['E', 'M'] + Decimal(bank), ['E', 'M'] + Decimal(bank) + Decimal(digit);
      Match(Normalise(text)) == Some(Captures(area, Decimal(digit), [], []))
  {
    var area, text := ['E', 'M'] + Decimal(bank), ['E', 'M'] + Decimal(bank) + Decimal(digit);
    BareName(bank);
    assert |Decimal(digit)| == 1;
    var d := Decimal(digit)[0];
    assert Decimal(digit) == [d] && TailText([d], [], []) == [d] && text == area + [d];
    assert d in Decimal(digit);
    MatchBareEM(area, d, [], []);
    TailIsPlain(Decimal(bank), [], []);
    TailIsPlain(Decimal(digit), [], []);
    PlainJoin(['E', 'M'], Decimal(bank));
    PlainJoin(area, Decimal(digit));
    NormaliseKeepsPlain(text);
  }

  /** Whatever is not an instance of the pattern, after trimming and upper-casing, is refused. */
  lemma NotAnAddress(text: string)
    requires !exists c :: Captured(Normalise(text), c)
    ensures ParseAddress(text) == Err(InvalidAddress)
  {
    MatchIsThePattern(Normalise(text));
  }

  /** The area codes of the driver's table, and the memory each area lives in. */
  lemma AreaTable(name: AreaName)
    requires Named(name)
    ensures Info(name).code ==
      match name
      case NameCIO => 0xb0
      case NameW => 0xb1
      case NameH => 0xb2
      case NameA => 0xb3
      case NameD => 0x82
      case NameP => 0xb5
      case NameT => 0x89
      case NameC => 0x89
      case NameEM(k) => 0xa0 + k
      case NameF => 0
    ensures WordAreaOf(Info(name).code) ==
      match name
      case NameCIO => Some(CIO)
      case NameW => Some(WR)
      case NameH => Some(HR)
      case NameA => Some(AR)
      case NameD => Some(DM)
      case _ => None
    ensures BitAccessCode(Info(name).code) ==
      match name
      case NameCIO => 0x30
      case NameW => 0x32
      case NameH => 0x33
      case NameA => 0x31
      case NameD => 0x02
      case NameP => 0x35
      case NameEM(k) => 0x20 + k
      case _ => 0x89
  {
  }

  // ----- case and spaces -----

  /** Each letter of s in upper or lower case. */
  predicate CaseVariant(t: string, s: string) {
    |t| == |s| && forall i :: 0 <= i < |s| ==>
      t[i] == s[i] || ('A' <= s[i] <= 'Z' && (t[i] as int) == (s[i] as int) + 32)
  }

  predicate Blank(s: string) {
    forall i :: 0 <= i < |s| ==> s[i] == ' ' || s[i] == '\t' || s[i] == '\n' || s[i] == '\r'
  }

  lemma {:induction false} TrimLeftBlank(l: string, t: string)
    requires Blank(l) && t != [] && !IsSpace(t[0])
    ensures TrimLeft(l + t) == t
  {
    if l == [] {
      assert l + t == t;
    } else {
      assert (l + t)[1..] == l[1..] + t;
      TrimLeftBlank(l[1..], t);
    }
  }

  lemma {:induction false} TrimRightBlank(t: string, r: string)
    requires Blank(r) && t != [] && !IsSpace(t[|t| - 1])
    ensures TrimRight(t + r) == t
  {
    if r == [] {
      assert t + r == t;
    } else {
      var n := |r| - 1;
      assert (t + r)[..|t + r| - 1] == t + r[..n];
      TrimRightBlank(t, r[..n]);
    }
  }

  lemma VariantUppers(t: string, s: string)
    requires AllPlain(s) && CaseVariant(t, s)
    ensures Upper(t) == s && (s != [] ==> !IsSpace(t[0]) && !IsSpace(t[|t| - 1]))
  {
    forall i | 0 <= i < |s| ensures UpperChar(t[i]) == s[i] && !IsSpace(t[i]) {
      assert s[i] in s;
    }
  }

  /** Lower case and spaces around a text make no difference. */
  lemma CaseAndSpace(s: string, t: string, l: string, r: string)
    requires AllPlain(s) && s != [] && CaseVariant(t, s) && Blank(l) && Blank(r)
    ensures ParseAddress(l + t + r) == ParseAddress(s)
  {
    VariantUppers(t, s);
    assert l + t + r == l + (t + r) && (t + r)[0] == t[0];
    TrimLeftBlank(l, t + r);
    TrimRightBlank(t, r);
    NormaliseKeepsPlain(s);
  }

  lemma FormIsPlain(name: AreaName, number: nat, dot: Option<nat>, order: string)
    requires Named(name) && (order == [] || (dot.Some? && IsOrder(order)))
    ensures AllPlain(FormText(name, number, dot, order)) && FormText(name, number, dot, order) != []
  {
    var d := if dot.Some? then Decimal(dot.value) else [];
    AreaTextOfName(name);
    TailIsPlain(Decimal(number), d, order);
    PlainJoin(AreaText(name), TailText(Decimal(number), d, order));
  }

  // ----- decimal notation -----

  function Pow10(k: nat): (r: nat)
    ensures r > 0
  {
    if k == 0 then 1 else 10 * Pow10(k - 1)
  }

  /** Digits weigh by powers of ten, the first the most. */
  lemma {:induction false} DigitWeights(s: string)
    requires AllDigits(s) && s != []
    ensures AllDigits(s[1..])
    ensures Number(s) == DigitValue(s[0]) * Pow10(|s| - 1) + Number(s[1..])
  {
    var n := |s| - 1;
    DigitsSuffix(s);
    if n == 0 {
      assert s[..0] == [] && s[1..] == [];
    } else {
      DigitsPrefix(s, n);
      DigitWeights(s[..n]);
      assert s[..n][1..] == s[1..][..n - 1];
      TimesTen(DigitValue(s[0]), n - 1);
    }
  }

  lemma TimesTen(d: nat, k: nat)
    ensures 10 * (d * Pow10(k)) == d * Pow10(k + 1)
  {
  }

  lemma DigitsSuffix(s: string)
    requires AllDigits(s) && s != []
    ensures AllDigits(s[1..])
  {
    forall c | c in s[1..] ensures IsDigit(c) {
      assert c in s;
    }
  }

  /** The form with area D, number 0 and dot 20 is the text `D0.20`. */
  lemma ExampleText(text: string)
    requires text == ['D', '0', '.', '2', '0']
    ensures FormText(NameD, 0, Some(20), []) == text
  {
    SmallNumbers();
    assert TailText(['0'], ['2', '0'], []) == ['0', '.', '2', '0'];
  }

  lemma SmallNumbers()
    ensures Decimal(0) == ['0']
    ensures Decimal(20) == ['2', '0']
  {
  }
}
