/**
  Parsing and printing of hierarchical deterministic wallet paths
  (accounts/hd.go). Components from 0x80000000 on are hardened, as in the
  "Extended keys" section of BIP-32.
 */
module DerivationPaths {
  import opened Prelude

  type Path = seq<nat>

  const HARDENED: nat := 0x8000_0000
  const MAX_UINT32: nat := 0xFFFF_FFFF

  const DEFAULT_ROOT: Path := [HARDENED + 44, HARDENED + 60, HARDENED, 0]

  datatype ParseError = EmptyPath | AmbiguousPath | InvalidComponent | OutOfRange

  datatype Parsed = Ok(path: Path) | Err(error: ParseError)

  ghost predicate Words(path: Path) {
    forall i :: 0 <= i < |path| ==> path[i] <= MAX_UINT32
  }

  // ---------- strings ----------

  /** The parts of a string between slashes. */
  function Split(s: string): (parts: seq<string>)
    ensures |parts| >= 1
  {
    if s == "" then [""] else Prepend(s[0], Split(s[1..]))
  }

  function Prepend(c: char, parts: seq<string>): (r: seq<string>)
    requires |parts| >= 1
    ensures |r| >= 1
  {
    if c == '/' then [""] + parts else [[c] + parts[0]] + parts[1..]
  }

  lemma PrependConcat(c: char, a: seq<string>, b: seq<string>)
    requires |a| >= 1
    ensures Prepend(c, a + b) == Prepend(c, a) + b
  {
    assert (a + b)[1..] == a[1..] + b;
  }

  lemma {:induction false} SplitConcat(a: string, b: string)
    ensures Split(a + "/" + b) == Split(a) + Split(b)
  {
    if a == "" {
      assert ("/" + b)[1..] == b;
      assert a + "/" + b == "/" + b;
    } else {
      var t := a + "/" + b;
      SplitConcat(a[1..], b);
      assert t[1..] == a[1..] + "/" + b && t[0] == a[0];
      PrependConcat(a[0], Split(a[1..]), Split(b));
    }
  }

  lemma {:induction false} SplitNone(s: string)
    requires '/' !in s
    ensures Split(s) == [s]
  {
    if s != "" {
      assert s[0] in s;
      SplitNone(s[1..]);
      assert [s[0]] + s[1..] == s;
    }
  }

  predicate IsSpace(c: char) {
    || '\t' <= c <= '\r' || c == ' ' || c == '\U{85}' || c == '\U{A0}' || c == '\U{1680}'
    || '\U{2000}' <= c <= '\U{200A}' || c == '\U{2028}' || c == '\U{2029}' || c == '\U{202F}'
    || c == '\U{205F}' || c == '\U{3000}'
  }

  function TrimLeft(s: string): string {
    if s != "" && IsSpace(s[0]) then TrimLeft(s[1..]) else s
  }

  function TrimRight(s: string): string {
    if s != "" && IsSpace(s[|s| - 1]) then TrimRight(s[..|s| - 1]) else s
  }

  function TrimSpace(s: string): string {
    TrimRight(TrimLeft(s))
  }

  predicate HasQuote(s: string) {
    s != "" && s[|s| - 1] == '\''
  }

  // ---------- numbers ----------

  function DigitValue(c: char): nat {
    if '0' <= c <= '9' then c as int - '0' as int
    else if 'a' <= c <= 'f' then c as int - 'a' as int + 10
    else if 'A' <= c <= 'F' then c as int - 'A' as int + 10
    else 36
  }

  /** The number that a run of digits denotes, if all are digits of the base. */
  function Value(s: string, base: nat): Option<nat> {
    if s == "" then Some(0)
    else
      var high, d := Value(s[..|s| - 1], base), DigitValue(s[|s| - 1]);
      if high.None? || d >= base then None else Some(high.value * base + d)
  }

  function Digits(s: string, base: nat): Option<nat> {
    if s == "" then None else Value(s, base)
  }

  /** An unsigned number whose prefix selects base 16, 2 or 8 over 10. */
  function Unsigned(s: string): Option<nat> {
    if |s| <= 1 || s[0] != '0' then Digits(s, 10)
    else if s[1] == 'x' || s[1] == 'X' then Digits(s[2..], 16)
    else if s[1] == 'b' || s[1] == 'B' then Digits(s[2..], 2)
    else Digits(s[1..], 8)
  }

  function SetString(s: string): Option<int> {
    if s == "" then None
    else
      var n := Unsigned(if s[0] == '+' || s[0] == '-' then s[1..] else s);
      if n.None? then None
      else
        var v: int := n.value;
        Some(if s[0] == '-' then -v else v)
  }

  function Decimal(n: nat): (s: string)
    ensures s != ""
  {
    if n < 10 then [Digit(n)] else Decimal(n / 10) + [Digit(n % 10)]
  }

  function Digit(d: nat): (c: char)
    requires d < 10
    ensures '0' <= c <= '9' && DigitValue(c) == d && (c == '0' <==> d == 0)
  {
    '0' + d as char
  }

  lemma {:induction false} DecimalIs(n: nat)
    ensures Value(Decimal(n), 10) == Some(n)
    ensures forall i :: 0 <= i < |Decimal(n)| ==> '0' <= Decimal(n)[i] <= '9'
    ensures n > 0 ==> Decimal(n)[0] != '0'
  {
    if n < 10 {
      assert Value("", 10) == Some(0);
      assert [Digit(n)][..0] == "";
    } else {
      DecimalIs(n / 10);
      var s := Decimal(n);
      assert s[..|s| - 1] == Decimal(n / 10);
    }
  }

  /** A printed number is read back in base 10. */
  lemma DecimalRead(n: nat)
    ensures SetString(Decimal(n)) == Some(n)
  {
    DecimalIs(n);
  }

  // ---------- what a number may look like ----------

  function DigitChar(d: nat, upper: bool): (c: char)
    requires d < 16
    ensures DigitValue(c) == d && (d < 10 ==> '0' <= c <= '9') && c != '+' && c != '-'
  {
    if d < 10 then '0' + d as char else if upper then 'A' + (d - 10) as char else 'a' + (d - 10) as char
  }

  /** A number in any base up to 16, in small or capital letters. */
  function InBase(n: nat, base: nat, upper: bool): (s: string)
    requires 2 <= base <= 16
    ensures s != ""
  {
    if n < base then [DigitChar(n, upper)] else InBase(n / base, base, upper) + [DigitChar(n % base, upper)]
  }

  lemma ValueStep(s: string, c: char, base: nat, n: nat)
    requires Value(s, base) == Some(n) && DigitValue(c) < base
    ensures Value(s + [c], base) == Some(n * base + DigitValue(c))
  {
    assert (s + [c])[..|s|] == s;
  }

  lemma DivMod(n: nat, base: nat)
    requires base >= 2
    ensures n / base * base + n % base == n && n % base < base
  {
  }

  lemma {:induction false} InBaseRead(n: nat, base: nat, upper: bool)
    requires 2 <= base <= 16
    ensures Value(InBase(n, base, upper), base) == Some(n)
    ensures base <= 10 ==> '0' <= InBase(n, base, upper)[0] <= '9'
  {
    if n < base {
      assert Value("", base) == Some(0);
      ValueStep("", DigitChar(n, upper), base, 0);
      assert "" + [DigitChar(n, upper)] == [DigitChar(n, upper)];
    } else {
      InBaseRead(n / base, base, upper);
      DivMod(n, base);
      ValueStep(InBase(n / base, base, upper), DigitChar(n % base, upper), base, n / base);
    }
  }

  lemma {:induction false} Prefixed(x: char, digits: string, base: nat)
    requires digits != "" && ((base == 16 && (x == 'x' || x == 'X')) || (base == 2 && (x == 'b' || x == 'B')))
    ensures Unsigned(['0', x] + digits) == Value(digits, base)
  {
    assert (['0', x] + digits)[2..] == digits;
  }

  lemma {:induction false} NoSign(s: string)
    requires s != "" && s[0] == '0'
    ensures SetString(s) == if Unsigned(s).None? then None else Some(Unsigned(s).value)
  {
  }

  /** A prefix selects hexadecimal, */
  lemma {:induction false} HexRead(n: nat, upper: bool, x: char)
    requires x == 'x' || x == 'X'
    ensures SetString(['0', x] + InBase(n, 16, upper)) == Some(n)
  {
    InBaseRead(n, 16, upper);
    Prefixed(x, InBase(n, 16, upper), 16);
    NoSign(['0', x] + InBase(n, 16, upper));
  }

  /** or binary digits, */
  lemma {:induction false} BinaryRead(n: nat, x: char)
    requires x == 'b' || x == 'B'
    ensures SetString(['0', x] + InBase(n, 2, false)) == Some(n)
  {
    InBaseRead(n, 2, false);
    Prefixed(x, InBase(n, 2, false), 2);
    NoSign(['0', x] + InBase(n, 2, false));
  }

  /** a leading zero octal ones, */
  lemma OctalRead(n: nat)
    ensures SetString("0" + InBase(n, 8, false)) == Some(n)
  {
    InBaseRead(n, 8, false);
    assert ("0" + InBase(n, 8, false))[1..] == InBase(n, 8, false);
  }

  /** and a sign may come first. */
  lemma SignRead(n: nat)
    ensures SetString("+" + Decimal(n)) == Some(n) && SetString("-" + Decimal(n)) == Some(0 - n as int)
  {
    DecimalIs(n);
    assert ("+" + Decimal(n))[1..] == Decimal(n) && ("-" + Decimal(n))[1..] == Decimal(n);
    assert Unsigned(Decimal(n)) == Some(n);
  }

  /** No digit of any base, no prefix letter and no sign. */
  predicate Foreign(c: char) {
    DigitValue(c) == 36 && c != 'x' && c != 'X' && c != '+' && c != '-'
  }

  lemma {:induction false} ForeignValue(s: string, base: nat)
    requires base <= 16 && exists i :: 0 <= i < |s| && DigitValue(s[i]) == 36
    ensures Value(s, base) == None
  {
    var i :| 0 <= i < |s| && DigitValue(s[i]) == 36;
    if i < |s| - 1 {
      assert s[..|s| - 1][i] == s[i];
      ForeignValue(s[..|s| - 1], base);
    }
  }

  /** A foreign character anywhere, or nothing at all, is not a number. */
  lemma ForeignRead(s: string)
    requires s == "" || exists i :: 0 <= i < |s| && Foreign(s[i])
    ensures SetString(s) == None
  {
    if s != "" {
      var i :| 0 <= i < |s| && Foreign(s[i]);
      var t := if s[0] == '+' || s[0] == '-' then s[1..] else s;
      var j := if s[0] == '+' || s[0] == '-' then i - 1 else i;
      assert t[j] == s[i];
      ForeignUnsigned(t, j);
    }
  }

  lemma ForeignUnsigned(t: string, j: nat)
    requires j < |t| && Foreign(t[j])
    ensures Unsigned(t) == None
  {
    ForeignValue(t, 10);
    if |t| > 1 && t[0] == '0' {
      assert t[1..][j - 1] == t[j];
      ForeignValue(t[1..], 8);
      if j >= 2 {
        assert t[2..][j - 2] == t[j];
        ForeignValue(t[2..], 16);
        ForeignValue(t[2..], 2);
      }
    }
  }

  // ---------- components ----------

  /** The value of one component of a path. */
  function Component(text: string): (r: Parsed)
    ensures r.Ok? ==> |r.path| == 1 && r.path[0] <= MAX_UINT32
    ensures r.Err? ==> r.error == InvalidComponent || r.error == OutOfRange
  {
    var c := TrimSpace(text);
    var base := if HasQuote(c) then HARDENED else 0;
    var v := SetString(if HasQuote(c) then TrimSpace(c[..|c| - 1]) else c);
    if v.None? then Err(InvalidComponent)
    else if v.value < 0 || v.value > MAX_UINT32 - base then Err(OutOfRange)
    else Ok([base + v.value])
  }

  /** The canonical text of a component. */
  function Canonical(v: nat): string {
    if v >= HARDENED then Decimal(v - HARDENED) + "'" else Decimal(v)
  }

  lemma NoTrim(s: string)
    requires s != "" && !IsSpace(s[0]) && !IsSpace(s[|s| - 1])
    ensures TrimSpace(s) == s
  {
  }

  lemma DecimalTrim(n: nat)
    ensures TrimSpace(Decimal(n)) == Decimal(n) && !HasQuote(Decimal(n)) && '/' !in Decimal(n)
  {
    DecimalIs(n);
    NoTrim(Decimal(n));
  }

  /** A component survives printing and parsing. */
  lemma ComponentRoundTrip(v: nat)
    requires v <= MAX_UINT32
    ensures Component(Canonical(v)) == Ok([v]) && '/' !in Canonical(v)
  {
    var n := if v >= HARDENED then v - HARDENED else v;
    var d, c := Decimal(n), Canonical(v);
    DecimalIs(n);
    DecimalTrim(n);
    DecimalRead(n);
    NoTrim(c);
    if v >= HARDENED {
      assert c[..|c| - 1] == d;
    }
  }

  /** Which decimal components are in range: plain, */
  lemma PlainRange(n: nat)
    ensures Component(Decimal(n)) == if n <= 0xFFFF_FFFF then Ok([n]) else Err(OutOfRange)
  {
    DecimalTrim(n);
    DecimalRead(n);
  }

  /** hardened, */
  lemma HardenedRange(n: nat)
    ensures Component(Decimal(n) + "'") == if n <= 0x7FFF_FFFF then Ok([0x8000_0000 + n]) else Err(OutOfRange)
  {
    var d := Decimal(n);
    var c := d + "'";
    DecimalTrim(n);
    DecimalRead(n);
    DecimalIs(n);
    NoTrim(c);
    assert c[..|c| - 1] == d && HasQuote(c);
  }

  /** and negative. */
  lemma NegativeRange(n: nat)
    ensures Component("-" + Decimal(n)) == if n == 0 then Ok([0]) else Err(OutOfRange)
  {
    var c := "-" + Decimal(n);
    DecimalIs(n);
    SignRead(n);
    NoTrim(c);
    assert c[|c| - 1] == Decimal(n)[|Decimal(n)| - 1] && !HasQuote(c);
  }

  /** A component that is not a number is invalid, hardened or not. */
  lemma ComponentInvalid(c: string)
    requires c == "" || (!IsSpace(c[0]) && !IsSpace(c[|c| - 1]))
    requires !HasQuote(c) && (c == "" || exists i :: 0 <= i < |c| && Foreign(c[i]))
    ensures Component(c) == Component(c + "'") == Err(InvalidComponent)
  {
    ForeignRead(c);
    NoTrim(c + "'");
    assert (c + "'")[..|c|] == c;
    if c != "" { NoTrim(c); }
  }

  predicate AllSpace(s: string) {
    forall i :: 0 <= i < |s| ==> IsSpace(s[i])
  }

  lemma {:induction false} TrimLeftSpaces(a: string, s: string)
    requires AllSpace(a)
    ensures TrimLeft(a + s) == TrimLeft(s)
  {
    if a == "" {
      assert a + s == s;
    } else {
      assert (a + s)[1..] == a[1..] + s;
      TrimLeftSpaces(a[1..], s);
    }
  }

  lemma {:induction false} TrimRightSpaces(s: string, b: string)
    requires AllSpace(b)
    ensures TrimRight(s + b) == TrimRight(s)
  {
    if b == "" {
      assert s + b == s;
    } else {
      assert (s + b)[..|s + b| - 1] == s + b[..|b| - 1];
      TrimRightSpaces(s, b[..|b| - 1]);
    }
  }

  /** Whitespace around a component makes no difference. */
  lemma SpacesIgnored(a: string, c: string, b: string)
    requires AllSpace(a) && AllSpace(b) && c != "" && !IsSpace(c[0]) && !IsSpace(c[|c| - 1])
    ensures Component(a + c + b) == Component(c)
  {
    assert a + c + b == a + (c + b);
    TrimLeftSpaces(a, c + b);
    assert TrimLeft(c + b) == c + b;
    TrimRightSpaces(c, b);
    NoTrim(c);
  }

  // ---------- paths ----------

  /** Single components put together; the first failure decides. */
  function Collect(parts: seq<Parsed>): (r: Parsed)
    ensures r.Err? ==> exists i :: 0 <= i < |parts| && r == parts[i]
  {
    if parts == [] then Ok([])
    else
      var rest, last := Collect(parts[..|parts| - 1]), parts[|parts| - 1];
      if rest.Err? then rest else if last.Err? then last else Ok(rest.path + last.path)
  }

  function Each(texts: seq<string>): (parts: seq<Parsed>)
    ensures |parts| == |texts|
  {
    seq(|texts|, i requires 0 <= i < |texts| => Component(texts[i]))
  }

  /** Every part is one 32-bit number, if it is not a failure. */
  ghost predicate Singles(parts: seq<Parsed>) {
    forall i :: 0 <= i < |parts| && parts[i].Ok? ==> |parts[i].path| == 1 && parts[i].path[0] <= MAX_UINT32
  }

  lemma EachSingles(texts: seq<string>)
    ensures Singles(Each(texts))
  {
    forall i | 0 <= i < |texts| && Each(texts)[i].Ok?
      ensures |Each(texts)[i].path| == 1 && Each(texts)[i].path[0] <= MAX_UINT32
    {
      assert Each(texts)[i] == Component(texts[i]);
    }
  }

  lemma {:induction false} CollectSingles(parts: seq<Parsed>)
    requires Singles(parts)
    ensures Collect(parts).Ok? ==> |Collect(parts).path| == |parts| && Words(Collect(parts).path)
  {
    if parts != [] {
      CollectSingles(parts[..|parts| - 1]);
    }
  }

  /** A path from its first text and the values of all its components. */
  function Assemble(first: string, parts: seq<Parsed>): (r: Parsed)
    requires |parts| >= 1
  {
    if first == "" then Err(AmbiguousPath)
    else if first == "m" then
      if |parts| == 1 then Err(EmptyPath) else Collect(parts[1..])
    else
      var r := Collect(parts);
      if r.Err? then r else Ok(DEFAULT_ROOT + r.path)
  }

  /** The path that a text denotes. */
  function Parse(text: string): (r: Parsed) {
    Assemble(TrimSpace(Split(text)[0]), Each(Split(text)))
  }

  lemma AssembleWords(first: string, parts: seq<Parsed>)
    requires |parts| >= 1 && Singles(parts) && Assemble(first, parts).Ok?
    ensures |Assemble(first, parts).path| >= 1 && Words(Assemble(first, parts).path)
  {
    CollectSingles(parts);
    CollectSingles(parts[1..]);
  }

  /** An accepted path is not empty and holds 32-bit numbers. */
  lemma ParseWords(text: string)
    requires Parse(text).Ok?
    ensures |Parse(text).path| >= 1 && Words(Parse(text).path)
  {
    EachSingles(Split(text));
    AssembleWords(TrimSpace(Split(text)[0]), Each(Split(text)));
  }

  // ---------- which texts are accepted, and what they mean ----------

  lemma {:induction false} CollectConcat(a: seq<Parsed>, b: seq<Parsed>)
    requires Collect(a).Ok?
    ensures Collect(a + b) == if Collect(b).Err? then Collect(b) else Ok(Collect(a).path + Collect(b).path)
    decreases |b|
  {
    if b == [] {
      assert a + b == a;
    } else {
      assert (a + b)[..|a + b| - 1] == a + b[..|b| - 1];
      CollectConcat(a, b[..|b| - 1]);
    }
  }

  /** All components together are what each one is, */
  lemma {:induction false} CollectIs(parts: seq<Parsed>)
    requires Singles(parts)
    ensures Collect(parts).Ok? <==> forall i :: 0 <= i < |parts| ==> parts[i].Ok?
    ensures Collect(parts).Ok? ==> |Collect(parts).path| == |parts|
    ensures Collect(parts).Ok? ==> forall i :: 0 <= i < |parts| ==> parts[i] == Ok([Collect(parts).path[i]])
  {
    if parts != [] {
      CollectIs(parts[..|parts| - 1]);
    }
  }

  /** and the first bad one decides. */
  lemma {:induction false} FirstBad(parts: seq<Parsed>)
    requires Collect(parts).Err?
    ensures exists i :: 0 <= i < |parts| && Collect(parts) == parts[i] && Good(parts, i)
  {
    var init := parts[..|parts| - 1];
    if Collect(init).Err? {
      FirstBad(init);
      var i :| 0 <= i < |init| && Collect(init) == init[i] && Good(init, i);
      assert Collect(parts) == parts[i] && Good(parts, i);
    } else {
      GoodAll(init);
      assert Good(parts, |parts| - 1);
    }
  }

  /** The first `n` are accepted. */
  ghost predicate Good(parts: seq<Parsed>, n: nat)
    requires n <= |parts|
  {
    forall j :: 0 <= j < n ==> parts[j].Ok?
  }

  lemma {:induction false} GoodAll(parts: seq<Parsed>)
    requires Collect(parts).Ok?
    ensures Good(parts, |parts|)
  {
    if parts != [] { GoodAll(parts[..|parts| - 1]); }
  }

  /** Where the components of a text start: after a leading "m". */
  function Start(text: string): nat {
    if TrimSpace(Split(text)[0]) == "m" then 1 else 0
  }

  /** A text is accepted if and only if it does not start with a slash, has a component and
      every component is accepted; each of the first two failures has its own error. */
  lemma AcceptedIff(text: string)
    ensures var parts := Split(text);
      && (Parse(text) == Err(AmbiguousPath) <==> TrimSpace(parts[0]) == "")
      && (Parse(text) == Err(EmptyPath) <==> TrimSpace(parts[0]) == "m" && |parts| == 1)
      && (Parse(text).Ok? <==>
          && TrimSpace(parts[0]) != "" && Start(text) < |parts|
          && forall i :: Start(text) <= i < |parts| ==> Component(parts[i]).Ok?)
  {
    var parts := Split(text);
    EachSingles(parts);
    AssembledIff(TrimSpace(parts[0]), Each(parts));
    assert forall i :: 0 <= i < |parts| ==> Each(parts)[i] == Component(parts[i]);
  }

  lemma {:induction false} AssembledIff(first: string, parts: seq<Parsed>)
    requires |parts| >= 1 && Singles(parts)
    requires forall i :: 0 <= i < |parts| && parts[i].Err? ==>
      parts[i].error == InvalidComponent || parts[i].error == OutOfRange
    ensures var r, start := Assemble(first, parts), if first == "m" then 1 else 0;
      && (r == Err(AmbiguousPath) <==> first == "")
      && (r == Err(EmptyPath) <==> first == "m" && |parts| == 1)
      && (r.Ok? <==> first != "" && start < |parts| && forall i :: start <= i < |parts| ==> parts[i].Ok?)
  {
    CollectIs(parts);
    CollectIs(parts[1..]);
    assert forall i :: 1 <= i < |parts| ==> parts[1..][i - 1] == parts[i];
  }

  /** An accepted text starting with "m" is the list of its components' values. */
  lemma AbsoluteIs(text: string)
    requires Parse(text).Ok? && Start(text) == 1
    ensures |Parse(text).path| == |Split(text)| - 1
    ensures forall i :: 1 <= i < |Split(text)| ==> Component(Split(text)[i]) == Ok([Parse(text).path[i - 1]])
  {
    var each := Each(Split(text));
    EachSingles(Split(text));
    CollectIs(each[1..]);
    forall i | 1 <= i < |Split(text)| ensures Component(Split(text)[i]) == Ok([Parse(text).path[i - 1]]) {
      assert each[1..][i - 1] == Component(Split(text)[i]);
    }
  }

  /** A text without a leading "m" or slash is relative to the default root, errors included. */
  lemma {:induction false} RelativeIs(text: string)
    requires TrimSpace(Split(text)[0]) != "" && TrimSpace(Split(text)[0]) != "m"
    ensures Parse(text) == Parse("m/44'/60'/0'/0/" + text)
  {
    RootText();
    PrintedTexts(DEFAULT_ROOT);
    PrintedParts(DEFAULT_ROOT);
    Behind(Print(DEFAULT_ROOT), Texts(DEFAULT_ROOT), text);
    Slash(text);
  }

  lemma {:induction false} Slash(text: string)
    ensures "m/44'/60'/0'/0/" + text == "m/44'/60'/0'/0" + "/" + text
  {
    assert "m/44'/60'/0'/0" + "/" == "m/44'/60'/0'/0/";
  }

  lemma {:induction false} ParsedAs(text: string, parts: seq<string>)
    requires Split(text) == parts
    ensures |parts| >= 1 && Parse(text) == Assemble(TrimSpace(parts[0]), Each(parts))
  {
  }

  lemma TrimmedM()
    ensures TrimSpace("m") == "m"
  {
    NoTrim("m");
  }

  lemma {:induction false} Behind(root: string, texts: seq<string>, text: string)
    requires Split(root) == ["m"] + texts && Collect(Each(texts)) == Ok(DEFAULT_ROOT)
    requires TrimSpace(Split(text)[0]) != "" && TrimSpace(Split(text)[0]) != "m"
    ensures Parse(text) == Parse(root + "/" + text)
  {
    var b := Split(text);
    var all := ["m"] + (texts + b);
    SplitConcat(root, text);
    assert Split(root) + b == all;
    TrimmedM();
    ParsedAs(text, b);
    ParsedAs(root + "/" + text, all);
    PartsBehind(all, texts, b);
    AssembleBehind(Each(all), Each(texts), Each(b), TrimSpace(b[0]));
  }

  lemma {:induction false} PartsBehind(all: seq<string>, a: seq<string>, b: seq<string>)
    requires all == ["m"] + (a + b)
    ensures Each(all)[1..] == Each(a) + Each(b)
  {
    EachTail("m", a + b);
    EachConcat(a, b);
  }

  lemma EachConcat(a: seq<string>, b: seq<string>)
    ensures Each(a + b) == Each(a) + Each(b)
  {
  }

  lemma {:induction false} AssembleBehind(parts: seq<Parsed>, a: seq<Parsed>, b: seq<Parsed>, first: string)
    requires |parts| >= 1 && parts[1..] == a + b && |b| >= 1 && Collect(a) == Ok(DEFAULT_ROOT)
    requires first != "" && first != "m"
    ensures Assemble("m", parts) == Assemble(first, b)
  {
    CollectConcat(a, b);
  }

  lemma RootText()
    ensures Print(DEFAULT_ROOT) == "m/44'/60'/0'/0"
  {
    var r := DEFAULT_ROOT;
    assert r[..3][..2][..1][..0] == [];
    assert Decimal(44) == "44" && Decimal(60) == "60" && Decimal(0) == "0";
    assert r[..1] == [HARDENED + 44] && Print(r[..1]) == "m/44'" by { assert r[..1][..0] == []; }
    assert r[..2][..1] == r[..1] && Print(r[..2]) == "m/44'/60'";
    assert r[..3][..2] == r[..2] && Print(r[..3]) == "m/44'/60'/0'";
    assert r[..4] == r;
  }

  /** The canonical text of a path. */
  function Print(path: Path): string {
    if path == [] then "m" else Print(path[..|path| - 1]) + "/" + Canonical(path[|path| - 1])
  }

  function Texts(path: Path): (texts: seq<string>)
    ensures |texts| == |path|
  {
    seq(|path|, i requires 0 <= i < |path| => Canonical(path[i]))
  }

  /** The texts after a leading "m", each behind a slash. */
  function Joined(texts: seq<string>): string {
    if texts == [] then "m" else Joined(texts[..|texts| - 1]) + "/" + texts[|texts| - 1]
  }

  lemma {:induction false} PrintJoined(path: Path)
    ensures Print(path) == Joined(Texts(path))
  {
    if path != [] {
      PrintJoined(path[..|path| - 1]);
      assert Texts(path)[..|path| - 1] == Texts(path[..|path| - 1]);
    }
  }

  lemma {:induction false} SplitJoined(texts: seq<string>)
    requires forall i :: 0 <= i < |texts| ==> '/' !in texts[i]
    ensures Split(Joined(texts)) == ["m"] + texts
  {
    if texts == [] {
      SplitNone("m");
    } else {
      var init, last := texts[..|texts| - 1], texts[|texts| - 1];
      SplitJoined(init);
      SplitNone(last);
      SplitConcat(Joined(init), last);
      assert texts == init + [last];
    }
  }

  lemma {:induction false} CollectOk(parts: seq<Parsed>, path: Path)
    requires |parts| == |path| && forall i :: 0 <= i < |parts| ==> parts[i] == Ok([path[i]])
    ensures Collect(parts) == Ok(path)
  {
    if path != [] {
      CollectOk(parts[..|path| - 1], path[..|path| - 1]);
      assert path == path[..|path| - 1] + [path[|path| - 1]];
    }
  }

  lemma PrintedTexts(path: Path)
    requires Words(path)
    ensures Split(Print(path)) == ["m"] + Texts(path)
  {
    forall i | 0 <= i < |path| ensures '/' !in Texts(path)[i] {
      ComponentRoundTrip(path[i]);
    }
    PrintJoined(path);
    SplitJoined(Texts(path));
  }

  lemma PrintedParts(path: Path)
    requires Words(path)
    ensures Collect(Each(Texts(path))) == Ok(path)
  {
    forall i | 0 <= i < |path| ensures Each(Texts(path))[i] == Ok([path[i]]) {
      ComponentRoundTrip(path[i]);
    }
    CollectOk(Each(Texts(path)), path);
  }

  /** Parsing a printed path gives the path back, except for the empty path. */
  lemma RoundTrip(path: Path)
    requires Words(path)
    ensures Parse(Print(path)) == if path == [] then Err(EmptyPath) else Ok(path)
  {
    var texts := Texts(path);
    PrintedTexts(path);
    PrintedParts(path);
    NoTrim("m");
    EachTail("m", texts);
  }

  lemma EachTail(first: string, texts: seq<string>)
    ensures Each([first] + texts)[1..] == Each(texts)
  {
  }

  /** The printed form of an accepted text is accepted as the same path, so
      printing again changes nothing. */
  lemma Reprint(text: string)
    requires Parse(text).Ok?
    ensures var p := Parse(text).path; Parse(Print(p)) == Ok(p) && Print(Parse(Print(p)).path) == Print(p)
  {
    ParseWords(text);
    RoundTrip(Parse(text).path);
  }

  /** Different paths print differently. */
  lemma PrintInjective(p: Path, q: Path)
    requires Words(p) && Words(q) && Print(p) == Print(q)
    ensures p == q
  {
    RoundTrip(p);
    RoundTrip(q);
  }

  method ParseDerivationPath(text: string) returns (r: Parsed)
    ensures r == Parse(text)
  {
    var components := Split(text);
    r := ParseParts(components, TrimSpace(components[0]));
  }

  method ParseParts(components: seq<string>, first: string) returns (r: Parsed)
    requires |components| >= 1
    ensures r == Assemble(first, Each(components))
  {
    if first == "" {
      return Err(AmbiguousPath);
    }
    ghost var parts := Each(components);
    if first == "m" {
      if |components| == 1 {
        return Err(EmptyPath);
      }
      r := Append([], components[1..]);
      assert Each(components[1..]) == parts[1..];
    } else {
      r := Append(DEFAULT_ROOT, components);
    }
  }

  /** Appends the values of the components to a path. */
  method Append(prefix: Path, components: seq<string>) returns (r: Parsed)
    ensures var c := Collect(Each(components)); r == if c.Err? then c else Ok(prefix + c.path)
  {
    var result := prefix;
    ghost var parts := Each(components);
    for i := 0 to |components|
      invariant Collect(parts[..i]).Ok? && result == prefix + Collect(parts[..i]).path
    {
      CollectStep(parts, i);
      var value := ParseComponent(components[i]);
      if value.Err? {
        return value;
      }
      result := result + value.path;
    }
    assert parts[..|components|] == parts;
    return Ok(result);
  }

  method ParseComponent(text: string) returns (r: Parsed)
    ensures r == Component(text)
  {
    var component := TrimSpace(text);
    var value := 0;
    if HasQuote(component) {
      value := HARDENED;
      component := TrimSpace(component[..|component| - 1]);
    }
    var bigval := SetString(component);
    if bigval.None? {
      return Err(InvalidComponent);
    }
    if bigval.value < 0 || bigval.value > MAX_UINT32 - value {
      return Err(OutOfRange);
    }
    value := (value + bigval.value) % (MAX_UINT32 + 1);
    return Ok([value]);
  }

  /** A prefix decides about the whole when it fails. */
  lemma {:induction false} CollectFails(parts: seq<Parsed>, n: nat)
    requires n <= |parts| && Collect(parts[..n]).Err?
    ensures Collect(parts) == Collect(parts[..n])
    decreases |parts|
  {
    if n == |parts| {
      assert parts[..n] == parts;
    } else {
      var init := parts[..|parts| - 1];
      assert init[..n] == parts[..n];
      CollectFails(init, n);
    }
  }

  lemma CollectStep(parts: seq<Parsed>, i: nat)
    requires i < |parts| && Collect(parts[..i]).Ok?
    ensures parts[i].Ok? ==> Collect(parts[..i + 1]) == Ok(Collect(parts[..i]).path + parts[i].path)
    ensures parts[i].Err? ==> Collect(parts) == parts[i]
  {
    assert parts[..i + 1][..i] == parts[..i];
    if parts[i].Err? {
      CollectFails(parts, i + 1);
    }
  }

  method ToString(path: Path) returns (s: string)
    ensures s == Print(path)
  {
    s := "m";
    for i := 0 to |path|
      invariant s == Print(path[..i])
    {
      assert path[..i + 1][..i] == path[..i];
      var component, hardened := path[i], false;
      if component >= HARDENED {
        component := component - HARDENED;
        hardened := true;
      }
      s := s + "/" + Decimal(component);
      if hardened {
        s := s + "'";
      }
    }
    assert path[..|path|] == path;
  }
}
