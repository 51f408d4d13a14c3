/** What a variable assigns, by the kind of its setting, stated on the result of the overlay. */
module OverlayValues {
  import opened Options
  import opened Strings
  import opened ConfigModel
  import opened Environment
  import opened Overlay

  /** `r` is a result of the overlay of `c` in the world whose one variable is the canonical one
      of the leaf `p`. */
  ghost predicate Assigned(w: World, p: Path, kind: Kind, text: string, c: Config, r: Config) {
    && Clean(w.schema) && LeafAt(w.schema, p) == Some(kind)
    && w.env == map["MM_" + CanonicalKey(p) := text]
    && p in c && IsOverlay(w, c, r)
  }

  lemma AssignedParses(w: World, p: Path, kind: Kind, text: string, c: Config, r: Config)
    requires Assigned(w, p, kind, text, c, r)
    ensures r.Keys == c.Keys && forall q :: q in c && q != p ==> r[q] == c[q]
    ensures r[p] == match Parse(w, kind, text)
      case None => c[p]
      case Some(v) => v
  {
    var key := "MM_" + CanonicalKey(p);
    assert key + "" == key;
    CanonicalTarget(w.schema, p, kind, "");
    forall q ensures Writes(w, q) == (if q != p then {} else match Parse(w, kind, text)
      case None => {}
      case Some(v) => {v})
    {
      OnlyWritten(w, key, p, kind, q);
    }
    assert Writes(w, p) != {} ==> r[p] in Writes(w, p);
  }

  /** Nothing but the one setting changes, and a text setting becomes the text. */
  lemma TextAssigned(w: World, p: Path, kind: Kind, text: string, c: Config, r: Config)
    requires Assigned(w, p, kind, text, c, r)
    ensures r.Keys == c.Keys && forall q :: q in c && q != p ==> r[q] == c[q]
    ensures kind == KString ==> r[p] == Str(text)
  {
    AssignedParses(w, p, kind, text, c, r);
  }

  /** A list setting becomes the one list without spaces in its entries that joins to the text. */
  lemma ListAssigned(w: World, p: Path, text: string, c: Config, r: Config, entries: seq<string>)
    requires Assigned(w, p, KList, text, c, r)
    ensures r[p] == List(entries) <==>
      |entries| > 0 && Join(entries, ' ') == text && forall e :: e in entries ==> ' ' !in e
  {
    AssignedParses(w, p, KList, text, c, r);
    JoinOfSplit(text, ' ');
    if |entries| > 0 && forall e :: e in entries ==> ' ' !in e { SplitOfJoin(entries, ' '); }
  }

  /** A switch takes six spellings each way; any other text leaves it alone. */
  lemma SwitchAssigned(w: World, p: Path, text: string, c: Config, r: Config)
    requires Assigned(w, p, KBool, text, c, r)
    ensures r[p] == if text in {"1", "t", "T", "TRUE", "true", "True"} then Flag(true)
      else if text in {"0", "f", "F", "FALSE", "false", "False"} then Flag(false)
      else c[p]
  {
    AssignedParses(w, p, KBool, text, c, r);
  }

  /** A table becomes what its JSON text decodes to, and stays if it does not decode. */
  lemma TableAssigned(w: World, p: Path, text: string, c: Config, r: Config)
    requires Assigned(w, p, KTable, text, c, r)
    ensures r[p] == if w.json(text).Some? then Table(w.json(text).value) else c[p]
  {
    AssignedParses(w, p, KTable, text, c, r);
  }

  // ---- Numbers -----------------------------------------------------------

  predicate IsDigit(c: char) {
    '0' <= c <= '9'
  }

  function DigitValue(c: char): nat
    requires IsDigit(c)
  {
    c as int - '0' as int
  }

  function Power(n: nat): nat {
    if n == 0 then 1 else 10 * Power(n - 1)
  }

  ghost predicate Digits(s: string) {
    forall i :: 0 <= i < |s| ==> IsDigit(s[i])
  }

  /** The decimal value, digit by digit from the most significant one. */
  ghost function Decimal(s: string): nat
    requires Digits(s)
  {
    if s == "" then 0
    else
      assert Digits(s[1..]);
      DigitValue(s[0]) * Power(|s| - 1) + Decimal(s[1..])
  }

  /** A sign that may be missing, and at least one digit. */
  ghost predicate Numeral(text: string, sign: string, digits: string) {
    text == sign + digits && sign in {"", "+", "-"} && digits != "" && Digits(digits)
  }

  ghost function Signed(sign: string, digits: string): int
    requires Digits(digits)
  {
    if sign == "-" then 0 - (Decimal(digits) as int) else Decimal(digits)
  }

  predicate Fits64(n: int) {
    -0x8000_0000_0000_0000 <= n <= 0x7FFF_FFFF_FFFF_FFFF
  }

  lemma {:induction false} LastDigit(s: string)
    requires s != "" && Digits(s)
    ensures Digits(s[..|s| - 1]) && Decimal(s) == 10 * Decimal(s[..|s| - 1]) + DigitValue(s[|s| - 1])
  {
    if |s| > 1 {
      LastDigit(s[1..]);
      assert s[1..][..|s| - 2] == s[..|s| - 1][1..];
      Shift(DigitValue(s[0]), Power(|s| - 2));
    } else {
      assert s[1..] == "" && s[..0] == "";
    }
  }

  lemma Shift(d: nat, p: nat)
    ensures d * (10 * p) == 10 * (d * p)
  {
  }

  lemma {:induction false} DigitsParse(s: string)
    ensures ParseDigits(s) == if Digits(s) then Some(Decimal(s)) else None
  {
    if s != "" {
      DigitsParse(s[..|s| - 1]);
      if Digits(s) {
        LastDigit(s);
      } else if IsDigit(s[|s| - 1]) {
        assert !Digits(s[..|s| - 1]);
      }
    }
  }

  /** A numeral has one sign. */
  lemma SignOf(text: string, sign: string, digits: string)
    requires Numeral(text, sign, digits)
    ensures if sign == "" then text == digits && IsDigit(text[0])
      else text[0] == sign[0] && !IsDigit(sign[0]) && text[1..] == digits
  {
    assert sign != "" ==> |sign| == 1;
  }

  lemma NumeralParses(text: string, sign: string, digits: string)
    requires Numeral(text, sign, digits)
    ensures ParseInt(text) == if Fits64(Signed(sign, digits)) then Some(Signed(sign, digits)) else None
  {
    SignOf(text, sign, digits);
    DigitsParse(digits);
  }

  lemma OtherTextFails(text: string)
    requires forall sign, digits :: !Numeral(text, sign, digits)
    ensures ParseInt(text) == None
  {
    var negative := HasPrefix(text, "-");
    var signed := negative || HasPrefix(text, "+");
    var digits := if signed then text[1..] else text;
    var sign := if negative then "-" else if signed then "+" else "";
    assert sign + digits == text;
    assert !Numeral(text, sign, digits);
    DigitsParse(digits);
  }

  /** A number becomes the decimal value of a signed numeral that fits into 64 bits; a numeral out
      of range and any other text leave it alone. */
  lemma NumberAssigned(w: World, p: Path, text: string, c: Config, r: Config)
    requires Assigned(w, p, KInt, text, c, r)
    ensures forall sign, digits :: Numeral(text, sign, digits) ==>
      r[p] == if Fits64(Signed(sign, digits)) then Num(Signed(sign, digits)) else c[p]
    ensures (forall sign, digits :: !Numeral(text, sign, digits)) ==> r[p] == c[p]
  {
    AssignedParses(w, p, KInt, text, c, r);
    forall sign, digits | Numeral(text, sign, digits)
      ensures r[p] == if Fits64(Signed(sign, digits)) then Num(Signed(sign, digits)) else c[p]
    {
      NumeralParses(text, sign, digits);
    }
    if forall sign, digits :: !Numeral(text, sign, digits) { OtherTextFails(text); }
  }

  function Digit(n: nat): char
    requires n < 10
  {
    (n + '0' as int) as char
  }

  function RenderedNat(n: nat): string {
    if n < 10 then [Digit(n)] else RenderedNat(n / 10) + [Digit(n % 10)]
  }

  /** strconv.Itoa. */
  function Rendered(n: int): string {
    if n < 0 then "-" + RenderedNat(0 - n) else RenderedNat(n)
  }

  lemma {:induction false} RenderedDigits(n: nat)
    ensures RenderedNat(n) != "" && Digits(RenderedNat(n)) && Decimal(RenderedNat(n)) == n
  {
    var s := RenderedNat(n);
    if n >= 10 {
      RenderedDigits(n / 10);
      assert s[..|s| - 1] == RenderedNat(n / 10);
      LastDigit(s);
    } else {
      assert s[1..] == "" && Power(0) == 1;
    }
  }

  /** Rendering a number and assigning it gives the number back. */
  lemma RenderedAssigned(w: World, p: Path, n: int, c: Config, r: Config)
    requires Assigned(w, p, KInt, Rendered(n), c, r)
    ensures r[p] == if Fits64(n) then Num(n) else c[p]
  {
    NumberAssigned(w, p, Rendered(n), c, r);
    if n < 0 {
      RenderedDigits(0 - n);
      assert Numeral(Rendered(n), "-", RenderedNat(0 - n));
    } else {
      RenderedDigits(n);
      assert "" + Rendered(n) == Rendered(n);
      assert Numeral(Rendered(n), "", Rendered(n));
    }
  }
}
