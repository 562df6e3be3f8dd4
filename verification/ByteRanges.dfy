/**
 The text of HTTP byte ranges: `single_range` for a client's Range header and
 `content_range` for a server's Content-Range, after RFC 9110 sections 14.1.2 and 14.4.
 */
module ByteRanges {
  import opened Basics
  import opened Text

  // ----- Range: what a client asks for -----

  /** The two sides of the only range in a header value. */
  function Sides(value: string): Option<(string, string)> {
    match StripPrefix(value, "bytes=")
    case None => None
    case Some(rest) => if ',' in rest then None else SplitOnce(rest, '-')
  }

  function Resolve(first: string, last: string, length: nat): (r: Option<(nat, nat)>)
    ensures r.Some? ==> r.value.0 <= r.value.1 < length
  {
    if length == 0 then None
    else if first == "" then
      match ParseU64(last)
      case None => None
      case Some(n) =>
        var count := Min(n, length);
        if count > 0 then Some((length - count, length - 1)) else None
    else
      match ParseU64(first)
      case None => None
      case Some(start) =>
        var end := if last == "" then Some(length - 1)
                   else match ParseU64(last) case None => None case Some(n) => Some(Min(n, length - 1));
        if end.Some? && start <= end.value && start < length then Some((start, end.value)) else None
  }

  function SingleRange(value: string, length: nat): (r: Option<(nat, nat)>)
    ensures r.Some? ==> r.value.0 <= r.value.1 < length
  {
    match Sides(value)
    case None => None
    case Some((first, last)) => Resolve(first, last, length)
  }

  /** One range, by meaning. */
  datatype RangeSpec = FromTo(first: nat, last: nat) | From(first: nat) | Suffix(count: nat)

  /** Byte `k` of a representation of `length` bytes belongs to the range. */
  predicate Selects(spec: RangeSpec, length: nat, k: nat) {
    && k < length
    && match spec
       case FromTo(a, b) => a <= k <= b
       case From(a) => a <= k
       case Suffix(n) => length <= k + n
  }

  function Largest(spec: RangeSpec): nat {
    match spec
    case FromTo(a, b) => if a < b then b else a
    case From(a) => a
    case Suffix(n) => n
  }

  /** The two sides of a range: numerals, one of which may be missing. */
  predicate SidesOk(a: string, b: string) {
    (a == "" || Numeral(a)) && (b == "" || Numeral(b)) && !(a == "" && b == "")
  }

  /** What a range with these sides asks for. */
  function SpecOf(a: string, b: string): RangeSpec
    requires SidesOk(a, b)
  {
    if a == "" then Suffix(NumeralValue(b))
    else if b == "" then From(NumeralValue(a))
    else FromTo(NumeralValue(a), NumeralValue(b))
  }

  function Written(a: string, b: string): string {
    "bytes=" + a + "-" + b
  }

  /** The sides of a value are the two parts around its first hyphen. */
  lemma SidesMeaning(v: string)
    ensures Sides(v).Some? ==> v == Written(Sides(v).value.0, Sides(v).value.1)
  {
    var prefix := "bytes=";
    if prefix <= v {
      var rest := v[|prefix|..];
      assert v == prefix + rest;
      SplitOnceMeaning(rest, '-');
    }
  }

  lemma NumeralPlain(s: string)
    requires s == "" || Numeral(s)
    ensures '-' !in s && ',' !in s
  {
    if s != "" {
      NumeralSign(s);
    }
  }

  lemma WrittenSides(a: string, b: string)
    requires SidesOk(a, b)
    ensures Sides(Written(a, b)) == Some((a, b))
  {
    NumeralPlain(a);
    NumeralPlain(b);
    var rest := a + ['-'] + b;
    assert Written(a, b) == "bytes=" + rest;
    PrefixOff("bytes=", rest);
    SplitAtFirst(a, '-', b);
  }

  /** The numbers fit in 64 bits and some byte is selected. */
  ghost predicate Satisfiable(spec: RangeSpec, length: nat) {
    Largest(spec) <= U64_MAX && exists k: nat :: Selects(spec, length, k)
  }

  /** Two sides resolve exactly when they are numerals within 64 bits that select some byte. */
  lemma ResolveMeaning(a: string, b: string, length: nat)
    requires length <= U64_MAX
    ensures Resolve(a, b, length).Some? <==>
      SidesOk(a, b) && Satisfiable(SpecOf(a, b), length)
    ensures Resolve(a, b, length).Some? ==>
      forall k: nat :: Selects(SpecOf(a, b), length, k) <==> Resolve(a, b, length).value.0 <= k <= Resolve(a, b, length).value.1
  {
    ParseMeaning(a);
    ParseMeaning(b);
    hide ParseU64, NumeralValue, AllDigits;
    assert !Numeral("");
    if SidesOk(a, b) {
      match SpecOf(a, b)
      case FromTo(first, last) => assert first <= last && first < length ==> Selects(SpecOf(a, b), length, first);
      case From(first) => assert first < length ==> Selects(SpecOf(a, b), length, first);
      case Suffix(n) => assert 0 < n && 0 < length ==> Selects(SpecOf(a, b), length, length - 1);
    }
  }

  /** The value is one range with numerals for sides, and asks for `spec`. */
  ghost predicate Asks(v: string, spec: RangeSpec) {
    exists a, b :: v == Written(a, b) && SidesOk(a, b) && SpecOf(a, b) == spec
  }

  /**
   Which values of a Range header are accepted, and as what: exactly those that ask for a
   satisfiable range, and then the interval is the selected bytes.
   */
  lemma RangeMeaning(v: string, length: nat)
    requires length <= U64_MAX
    ensures SingleRange(v, length).Some? <==> exists spec :: Asks(v, spec) && Satisfiable(spec, length)
    ensures forall spec :: Asks(v, spec) ==>
      && (SingleRange(v, length).Some? <==> Satisfiable(spec, length))
      && (SingleRange(v, length).Some? ==>
            var r := SingleRange(v, length).value;
            forall k: nat :: Selects(spec, length, k) <==> r.0 <= k <= r.1)
  {
    SidesMeaning(v);
    hide Resolve, SpecOf, Largest, SidesOk, Written, Sides;
    if Sides(v).Some? {
      ResolveMeaning(Sides(v).value.0, Sides(v).value.1, length);
    }
    forall a, b | v == Written(a, b) && SidesOk(a, b)
      ensures Sides(v) == Some((a, b))
    {
      WrittenSides(a, b);
    }
    if SingleRange(v, length).Some? {
      assert Asks(v, SpecOf(Sides(v).value.0, Sides(v).value.1));
    }
  }

  /**
   A single byte range as RFC 9110 section 14.1.2 allows it, an int-range or a suffix-range of section
   14.1.1: digits on both sides, one of which may be missing.
   */
  ghost predicate Grammatical(v: string) {
    exists a, b :: v == Written(a, b) && AllDigits(a) && AllDigits(b) && !(a == "" && b == "")
  }

  /** An accepted value is in the standard's grammar exactly when it contains no plus sign. */
  lemma AcceptedGrammar(v: string, length: nat)
    requires SingleRange(v, length).Some?
    ensures Grammatical(v) <==> '+' !in v
  {
    SidesMeaning(v);
    var (a, b) := Sides(v).value;
    ParseMeaning(a);
    ParseMeaning(b);
    if '+' !in v {
      assert forall c :: c in a || c in b ==> c in v;
      if a != "" {
        NumeralSign(a);
      }
      if b != "" {
        NumeralSign(b);
      }
      assert v == Written(a, b) && AllDigits(a) && AllDigits(b);
    }
    if x, y :| v == Written(x, y) && AllDigits(x) && AllDigits(y) && !(x == "" && y == "") {
      forall c | c in v
        ensures c != '+'
      {
        assert c in "bytes=" || c in x || c == '-' || c in y;
      }
    }
  }

  /** A value that is accepted although it is outside the grammar. */
  lemma SignAccepted()
    ensures SingleRange("bytes=+0-", 5) == Some((0, 4)) && !Grammatical("bytes=+0-")
  {
    assert AllDigits("0") && DecimalValue("0") == 0;
    assert Unsigned("+0") == "0";
    assert Written("+0", "") == "bytes=+0-";
    WrittenSides("+0", "");
    AcceptedGrammar("bytes=+0-", 5);
    assert "bytes=+0-"[6] == '+';
  }

  /** A last position of 2^64 or more is refused, although the range then selects the whole file. */
  lemma HugeLastRefused(n: nat, length: nat)
    requires n > U64_MAX && 0 < length <= U64_MAX
    ensures Asks("bytes=0-" + Decimal(n), FromTo(0, n)) && forall k: nat :: Selects(FromTo(0, n), length, k) <==> k < length
    ensures SingleRange("bytes=0-" + Decimal(n), length) == None
  {
    var v := "bytes=0-" + Decimal(n);
    DecimalNumeral(n);
    assert Numeral("0") && NumeralValue("0") == 0 by {
      assert Unsigned("0") == "0" && DecimalValue("0") == 0;
    }
    assert v == Written("0", Decimal(n));
    assert Decimal(n) != "";
    hide Decimal, NumeralValue;
    assert SpecOf("0", Decimal(n)) == FromTo(0, n);
    RangeMeaning(v, length);
  }

  // ----- Content-Range: what a server delivers -----

  /** The three numbers of a Content-Range value, still as text. */
  function Fields(value: string): Option<(string, string, string)> {
    match StripPrefix(value, "bytes ")
    case None => None
    case Some(rest) =>
      match SplitOnce(rest, '/')
      case None => None
      case Some((range, total)) =>
        match SplitOnce(range, '-')
        case None => None
        case Some((first, last)) => Some((first, last, total))
  }

  function ContentRange(value: string): (r: Option<(nat, nat, nat)>)
    ensures r.Some? ==> r.value.0 <= r.value.1 < r.value.2 <= U64_MAX
  {
    match Fields(value)
    case None => None
    case Some((first, last, total)) =>
      var start, end, length := ParseU64(first), ParseU64(last), ParseU64(total);
      if start.Some? && end.Some? && length.Some?
         && start.value <= end.value && end.value < length.value
      then Some((start.value, end.value, length.value)) else None
  }

  function WrittenContent(a: string, b: string, c: string): string {
    "bytes " + a + "-" + b + "/" + c
  }

  /** The fields of a value are the parts around its first slash and the first hyphen before it. */
  lemma FieldsMeaning(v: string)
    ensures Fields(v).Some? ==> v == WrittenContent(Fields(v).value.0, Fields(v).value.1, Fields(v).value.2)
  {
    var prefix := "bytes ";
    if prefix <= v {
      var rest := v[|prefix|..];
      assert v == prefix + rest;
      SplitOnceMeaning(rest, '/');
      if SplitOnce(rest, '/').Some? {
        SplitOnceMeaning(SplitOnce(rest, '/').value.0, '-');
      }
    }
  }

  lemma WrittenFields(a: string, b: string, c: string)
    requires Numeral(a) && Numeral(b) && Numeral(c)
    ensures Fields(WrittenContent(a, b, c)) == Some((a, b, c))
  {
    NumeralSign(a);
    NumeralSign(b);
    var range := a + ['-'] + b;
    var rest := range + ['/'] + c;
    assert WrittenContent(a, b, c) == "bytes " + rest;
    PrefixOff("bytes ", rest);
    SplitAtFirst(range, '/', c);
    SplitAtFirst(a, '-', b);
  }

  /** The three numerals of a delivery that is in order and fits in 64 bits. */
  predicate InOrder(a: string, b: string, c: string) {
    && Numeral(a) && Numeral(b) && Numeral(c)
    && NumeralValue(a) <= NumeralValue(b) < NumeralValue(c) <= U64_MAX
  }

  /** Which Content-Range values are accepted, and as what. */
  lemma ContentRangeMeaning(v: string)
    ensures ContentRange(v).Some? <==> exists a, b, c :: v == WrittenContent(a, b, c) && InOrder(a, b, c)
    ensures forall a, b, c :: v == WrittenContent(a, b, c) && InOrder(a, b, c) ==>
      ContentRange(v) == Some((NumeralValue(a), NumeralValue(b), NumeralValue(c)))
  {
    FieldsMeaning(v);
    if ContentRange(v).Some? {
      var (a, b, c) := Fields(v).value;
      ParseMeaning(a);
      ParseMeaning(b);
      ParseMeaning(c);
      assert v == WrittenContent(a, b, c) && InOrder(a, b, c);
    }
    hide Fields, ParseU64, WrittenContent;
    forall a, b, c | v == WrittenContent(a, b, c) && InOrder(a, b, c)
      ensures ContentRange(v) == Some((NumeralValue(a), NumeralValue(b), NumeralValue(c)))
    {
      WrittenFields(a, b, c);
      ParseMeaning(a);
      ParseMeaning(b);
      ParseMeaning(c);
    }
  }

  /** A delivered range as RFC 9110 section 14.4 writes it: three runs of digits. */
  ghost predicate GrammaticalContent(v: string) {
    exists a, b, c :: v == WrittenContent(a, b, c) && a != "" && b != "" && c != ""
                      && AllDigits(a) && AllDigits(b) && AllDigits(c)
  }

  /** Outside the three numbers a value has no plus sign. */
  lemma ContentSign(a: string, b: string, c: string)
    ensures '+' in WrittenContent(a, b, c) <==> '+' in a || '+' in b || '+' in c
  {
    var v, prefix := WrittenContent(a, b, c), "bytes ";
    var i, j := |prefix| + |a|, |prefix| + |a| + 1 + |b|;
    assert v == prefix + a + "-" + b + "/" + c;
    assert v[|prefix|..i] == a && v[i + 1..j] == b && v[j + 1..] == c;
  }

  /** An accepted Content-Range is in the standard's grammar exactly when it contains no plus sign. */
  lemma AcceptedContentGrammar(v: string)
    requires ContentRange(v).Some?
    ensures GrammaticalContent(v) <==> '+' !in v
  {
    FieldsMeaning(v);
    var (a, b, c) := Fields(v).value;
    ParseMeaning(a);
    ParseMeaning(b);
    ParseMeaning(c);
    hide ContentRange, Fields, ParseU64, WrittenContent, Unsigned;
    assert Numeral(a) && Numeral(b) && Numeral(c);
    ContentSign(a, b, c);
    if '+' !in v {
      NumeralSign(a);
      NumeralSign(b);
      NumeralSign(c);
      assert a != "" && b != "" && c != "" by {
        assert !Numeral("");
      }
      assert v == WrittenContent(a, b, c) && AllDigits(a) && AllDigits(b) && AllDigits(c);
    }
    if x, y, z :| v == WrittenContent(x, y, z) && AllDigits(x) && AllDigits(y) && AllDigits(z) {
      ContentSign(x, y, z);
      assert !IsDigit('+');
    }
  }

  /** A delivery that is accepted although it is outside the grammar. */
  lemma ContentSignAccepted()
    ensures ContentRange("bytes +0-4/5") == Some((0, 4, 5)) && !GrammaticalContent("bytes +0-4/5")
  {
    var v := "bytes +0-4/5";
    assert InOrder("+0", "4", "5") by {
      assert Unsigned("+0") == "0" && Unsigned("4") == "4" && Unsigned("5") == "5";
      assert DecimalValue("0") == 0 && DecimalValue("4") == 4 && DecimalValue("5") == 5;
    }
    assert NumeralValue("+0") == 0 && NumeralValue("4") == 4 && NumeralValue("5") == 5 by {
      assert Unsigned("+0") == "0" && DecimalValue("0") == 0 && DecimalValue("4") == 4 && DecimalValue("5") == 5;
    }
    assert WrittenContent("+0", "4", "5") == v;
    assert v[6] == '+';
    hide *;
    ContentRangeMeaning(v);
    AcceptedContentGrammar(v);
  }

  /** Content-Range as the serving side writes it. */
  function FormatContentRange(start: nat, end: nat, length: nat): string {
    WrittenContent(Decimal(start), Decimal(end), Decimal(length))
  }

  /** Every well-ordered delivery it writes reads back; every ill-ordered or oversized one is refused. */
  lemma ContentRangeReadsBack(start: nat, end: nat, length: nat)
    ensures ContentRange(FormatContentRange(start, end, length))
      == if start <= end < length <= U64_MAX then Some((start, end, length)) else None
  {
    DecimalReadsBack(start);
    DecimalReadsBack(end);
    DecimalReadsBack(length);
    ParseDecimal(start);
    ParseDecimal(end);
    ParseDecimal(length);
    hide Fields, ParseU64, WrittenContent, Decimal;
    DecimalNumeral(start);
    DecimalNumeral(end);
    DecimalNumeral(length);
    WrittenFields(Decimal(start), Decimal(end), Decimal(length));
  }

  lemma DecimalNumeral(n: nat)
    ensures Numeral(Decimal(n)) && NumeralValue(Decimal(n)) == n
  {
    DecimalReadsBack(n);
  }
}
