/**
 * Price text handling shared by both extractors: the `re.sub(r"[^\d,]", "", ...)`
 * cleaning, the Brazilian decimal comma, and Python's `float(...)` conversion,
 * modelled as an exact decimal instead of a binary float.
 */
module Price {
  import opened Wrappers
  import opened Text

  /** The exact number `mantissa / 10^scale`. */
  datatype Decimal = Decimal(mantissa: nat, scale: nat)

  function Pow10(n: nat): (r: nat)
    ensures r >= 1
  {
    if n == 0 then 1 else 10 * Pow10(n - 1)
  }

  /** The number a decimal stands for. */
  ghost function Value(d: Decimal): real {
    d.mantissa as real / Pow10(d.scale) as real
  }

  /** An ASCII digit (the model reads `\d` as ASCII only). */
  predicate IsDigit(c: char) {
    '0' <= c <= '9'
  }

  predicate AllDigits(s: string) {
    forall i :: 0 <= i < |s| ==> IsDigit(s[i])
  }

  predicate HasDigit(s: string) {
    exists i :: 0 <= i < |s| && IsDigit(s[i])
  }

  /** `c` occurs at most once in `s`. */
  predicate AtMostOnce(s: string, c: char) {
    forall i, j :: 0 <= i < |s| && 0 <= j < |s| && s[i] == c && s[j] == c ==> i == j
  }

  /** The value of a numeral, most significant digit first. */
  function NatOf(s: string): nat
    requires AllDigits(s)
  {
    if s == [] then 0 else NatOf(s[..|s| - 1]) * 10 + (s[|s| - 1] as int - '0' as int)
  }

  /** Reading `a + b` as one numeral shifts `a` left by the length of `b`. */
  lemma {:induction false} NatOfAppend(a: string, b: string)
    requires AllDigits(a) && AllDigits(b)
    ensures AllDigits(a + b)
    ensures NatOf(a + b) == NatOf(a) * Pow10(|b|) + NatOf(b)
    decreases |b|
  {
    var ab := a + b;
    assert AllDigits(ab);
    if b == [] {
      assert ab == a;
    } else {
      var b' := b[..|b| - 1];
      var d := b[|b| - 1] as int - '0' as int;
      assert ab[..|ab| - 1] == a + b';
      assert NatOf(ab) == NatOf(a + b') * 10 + d;
      assert NatOf(b) == NatOf(b') * 10 + d;
      NatOfAppend(a, b');
      ShiftStep(NatOf(a), Pow10(|b'|), NatOf(b'), d);
    }
  }

  lemma ShiftStep(x: nat, p: nat, y: nat, d: int)
    ensures (x * p + y) * 10 + d == x * (10 * p) + (y * 10 + d)
  {
  }

  /** The characters the cleaning regex keeps: digits and the comma. */
  predicate Kept(c: char) {
    IsDigit(c) || c == ','
  }

  /** `re.sub(r"[^\d,]", "", t)`. */
  function Clean(t: string): (r: string)
    ensures |r| <= |t|
    ensures forall i :: 0 <= i < |r| ==> Kept(r[i])
    ensures (forall i :: 0 <= i < |t| ==> Kept(t[i])) ==> r == t
    ensures (forall i :: 0 <= i < |t| ==> !Kept(t[i])) ==> r == []
  {
    if t == [] then []
    else (if Kept(t[0]) then [t[0]] else []) + Clean(t[1..])
  }

  lemma {:induction false} CleanAppend(a: string, b: string)
    ensures Clean(a + b) == Clean(a) + Clean(b)
    decreases |a|
  {
    if a != [] {
      assert (a + b)[1..] == a[1..] + b;
      CleanAppend(a[1..], b);
    } else {
      assert a + b == b;
    }
  }

  lemma {:induction false} CleanDropsSpace(s: string)
    requires AllSpace(s)
    ensures Clean(s) == []
    decreases |s|
  {
    if s != [] {
      CleanDropsSpace(s[1..]);
    }
  }

  /** Whitespace around a text does not survive the cleaning. */
  lemma CleanDropsPadding(before: string, r: string, after: string)
    requires AllSpace(before) && AllSpace(after)
    ensures Clean(before + r + after) == Clean(r)
  {
    CleanAppend(before + r, after);
    CleanAppend(before, r);
    CleanDropsSpace(before);
    CleanDropsSpace(after);
  }

  lemma SplitThree(t: string, i: nat, j: nat)
    requires i <= j <= |t|
    ensures t == t[..i] + t[i..j] + t[j..]
  {
  }

  /** The `.strip()` before the cleaning never changes the cleaned text. */
  lemma CleanIgnoresStrip(t: string)
    ensures Clean(Strip(t)) == Clean(t)
  {
    var r := Strip(t);
    var i :| 0 <= i <= |t| - |r| && r == t[i..i + |r|] && AllSpace(t[..i]) && AllSpace(t[i + |r|..]);
    var j := i + |r|;
    SplitThree(t, i, j);
    CleanDropsPadding(t[..i], t[i..j], t[j..]);
  }

  /** `s.replace(",", ".")`. */
  function CommaToDot(s: string): (r: string)
    ensures |r| == |s|
    ensures forall i :: 0 <= i < |s| ==> r[i] == (if s[i] == ',' then '.' else s[i])
  {
    seq(|s|, i requires 0 <= i < |s| => if s[i] == ',' then '.' else s[i])
  }

  /** Index of the first `c` in `s`, or `|s|` when there is none. */
  function IndexOf(s: string, c: char): (k: nat)
    ensures k <= |s|
    ensures k < |s| ==> s[k] == c
    ensures forall i :: 0 <= i < k ==> s[i] != c
  {
    if s == [] then 0
    else if s[0] == c then 0
    else
      var k := 1 + IndexOf(s[1..], c);
      assert forall i :: 1 <= i < k ==> s[i] == s[1..][i - 1];
      k
  }

  /**
   * Python's `float(s)` on a text made of digits and dots, the only texts the
   * extractors hand it: `None` where `float` raises `ValueError`. The result is
   * exact: integer part `s[..k]`, fraction part `s[k+1..]`.
   */
  function ParseFloat(s: string): (r: Option<Decimal>)
    requires forall i :: 0 <= i < |s| ==> IsDigit(s[i]) || s[i] == '.'
    ensures r.Some? <==> HasDigit(s) && AtMostOnce(s, '.')
  {
    var k := IndexOf(s, '.');
    if !HasDigit(s) then None
    else if k == |s| then
      NoDot(s);
      Some(Decimal(NatOf(s), 0))
    else
      var frac := s[k + 1..];
      FirstDot(s, k);
      if '.' in frac then
        assert !AtMostOnce(s, '.');
        None
      else
        assert AtMostOnce(s, '.');
        NatOfAppend(s[..k], frac);
        Some(Decimal(NatOf(s[..k] + frac), |frac|))
  }

  /**
   * The number `float` reads: a numeral without a dot is an integer; with one
   * dot at `k`, the digits on both sides joined, scaled by the fraction length.
   */
  lemma ParseFloatValue(s: string)
    requires forall i :: 0 <= i < |s| ==> IsDigit(s[i]) || s[i] == '.'
    requires ParseFloat(s).Some?
    ensures '.' !in s ==> ParseFloat(s).value == Decimal(NatOf(s), 0)
    ensures '.' in s ==>
      exists k :: 0 <= k < |s| && s[k] == '.' && AllDigits(s[..k]) && AllDigits(s[k + 1..])
        && ParseFloat(s).value == Decimal(NatOf(s[..k]) * Pow10(|s| - k - 1) + NatOf(s[k + 1..]), |s| - k - 1)
  {
    var k := IndexOf(s, '.');
    if k == |s| {
      NoDot(s);
      assert ParseFloat(s) == Some(Decimal(NatOf(s), 0));
    } else {
      DottedValue(s, k);
      assert '.' in s;
      // `k` is the witness of the existential in the second ensures.
      assert 0 <= k < |s| && s[k] == '.' && AllDigits(s[..k]) && AllDigits(s[k + 1..])
        && ParseFloat(s).value == Decimal(NatOf(s[..k]) * Pow10(|s| - k - 1) + NatOf(s[k + 1..]), |s| - k - 1);
    }
  }

  /** The value read from a text of digits with its first dot at `k`. */
  lemma DottedValue(s: string, k: nat)
    requires forall i :: 0 <= i < |s| ==> IsDigit(s[i]) || s[i] == '.'
    requires ParseFloat(s).Some? && k == IndexOf(s, '.') && k < |s|
    ensures s[k] == '.' && AllDigits(s[..k]) && AllDigits(s[k + 1..])
    ensures ParseFloat(s).value == Decimal(NatOf(s[..k]) * Pow10(|s| - k - 1) + NatOf(s[k + 1..]), |s| - k - 1)
  {
    var frac := s[k + 1..];
    FirstDot(s, k);
    assert ParseFloat(s) == Some(Decimal(NatOf(s[..k] + frac), |frac|));
    NatOfAppend(s[..k], frac);
  }

  /** A text of digits and dots without a dot is a numeral. */
  lemma NoDot(s: string)
    requires forall i :: 0 <= i < |s| ==> IsDigit(s[i]) || s[i] == '.'
    requires forall i :: 0 <= i < |s| ==> s[i] != '.'
    ensures AllDigits(s) && AtMostOnce(s, '.') && '.' !in s
  {
  }

  /**
   * With its first dot at `k`, a text of digits and dots has at most one dot
   * exactly when its tail has none; the part before the dot is a numeral, and
   * so is the tail when it has no dot.
   */
  lemma FirstDot(s: string, k: nat)
    requires forall i :: 0 <= i < |s| ==> IsDigit(s[i]) || s[i] == '.'
    requires k < |s| && s[k] == '.' && forall i :: 0 <= i < k ==> s[i] != '.'
    ensures AtMostOnce(s, '.') <==> '.' !in s[k + 1..]
    ensures AllDigits(s[..k])
    ensures '.' !in s[k + 1..] ==> AllDigits(s[k + 1..])
  {
    var frac := s[k + 1..];
    if '.' in frac {
      var j :| 0 <= j < |frac| && frac[j] == '.';
      assert s[k + 1 + j] == '.';
    } else {
      assert forall i :: k < i < |s| ==> s[i] == frac[i - k - 1];
    }
  }

  lemma CommaToDotKept(cleaned: string)
    requires forall i :: 0 <= i < |cleaned| ==> Kept(cleaned[i])
    ensures forall i :: 0 <= i < |cleaned| ==> IsDigit(CommaToDot(cleaned)[i]) || CommaToDot(cleaned)[i] == '.'
    ensures HasDigit(CommaToDot(cleaned)) <==> HasDigit(cleaned)
    ensures AtMostOnce(CommaToDot(cleaned), '.') <==> AtMostOnce(cleaned, ',')
  {
    var dotted := CommaToDot(cleaned);
    assert forall i :: 0 <= i < |cleaned| ==> (IsDigit(dotted[i]) <==> IsDigit(cleaned[i])) && (dotted[i] == '.' <==> cleaned[i] == ',');
  }

  /**
   * `float(preco_limpo.replace(",", "."))` on a cleaned price: succeeds exactly
   * when there is a digit and at most one comma.
   */
  function ToFloat(cleaned: string): (r: Option<Decimal>)
    requires forall i :: 0 <= i < |cleaned| ==> Kept(cleaned[i])
    ensures r.Some? <==> HasDigit(cleaned) && AtMostOnce(cleaned, ',')
  {
    CommaToDotKept(cleaned);
    ParseFloat(CommaToDot(cleaned))
  }

  /** The Brazilian price format: `"R$ 1.234,56"` is cleaned to `"1234,56"`... */
  lemma BrazilianPriceCleaned()
    ensures Clean("R$ 1.234,56") == "1234,56"
  {
    ExampleSplit("R$ 1.234,56");
    ExampleCleanParts("R$ " + ("1." + "234,56"));
  }

  lemma ExampleSplit(t: string)
    requires t == "R$ 1.234,56"
    ensures t == "R$ " + ("1." + "234,56")
  {
  }

  lemma ExampleCleanParts(t: string)
    requires t == "R$ " + ("1." + "234,56")
    ensures Clean(t) == "1234,56"
  {
    CleanCurrencySign();
    CleanAmount("1." + "234,56");
    CleanAppend("R$ ", "1." + "234,56");
    JoinAmount();
  }

  lemma CleanAmount(u: string)
    requires u == "1." + "234,56"
    ensures Clean(u) == "1" + "234,56"
  {
    CleanThousandsDot();
    CleanKeepsDecimals("234,56");
    CleanAppend("1.", "234,56");
  }

  lemma JoinAmount()
    ensures [] + ("1" + "234,56") == "1234,56"
  {
  }

  lemma CleanKeepsDecimals(t: string)
    requires t == "234,56"
    ensures Clean(t) == t
  {
    assert Kept(t[0]) && Kept(t[1]) && Kept(t[2]) && Kept(t[3]) && Kept(t[4]) && Kept(t[5]);
  }

  lemma CleanCurrencySign()
    ensures Clean("R$ ") == []
  {
    assert "R$ "[1..] == "$ " && "$ "[1..] == " " && " "[1..] == "";
  }

  lemma CleanThousandsDot()
    ensures Clean("1.") == "1"
  {
    assert "1."[1..] == "." && "."[1..] == "";
  }

  /** ... which reads as 1234.56. */
  lemma BrazilianPriceValue()
    ensures ToFloat("1234,56") == Some(Decimal(123456, 2))
    ensures Value(Decimal(123456, 2)) == 1234.56
  {
    ExampleDotted("1234,56");
    ExampleParse("1234.56");
  }

  lemma ExampleDotted(t: string)
    requires t == "1234,56"
    ensures forall i :: 0 <= i < |t| ==> Kept(t[i])
    ensures CommaToDot(t) == "1234.56"
  {
    assert Kept(t[0]) && Kept(t[1]) && Kept(t[2]) && Kept(t[3]) && Kept(t[4]) && Kept(t[5]) && Kept(t[6]);
  }

  lemma ExampleParse(s: string)
    requires s == "1234.56"
    ensures forall i :: 0 <= i < |s| ==> IsDigit(s[i]) || s[i] == '.'
    ensures ParseFloat(s) == Some(Decimal(123456, 2))
  {
    ExampleDotIndex();
    assert s[..4] == "1234" && s[5..] == "56";
    assert IsDigit(s[0]);
    ExampleNumerals();
    NatOfAppend("1234", "56");
  }

  lemma ExampleNumerals()
    ensures AllDigits("1234") && NatOf("1234") == 1234
    ensures AllDigits("56") && NatOf("56") == 56
  {
    assert "1234"[..3] == "123" && "123"[..2] == "12" && "12"[..1] == "1" && "1"[..0] == "";
    assert "56"[..1] == "5" && "5"[..0] == "";
  }

  lemma ExampleDotIndex()
    ensures IndexOf("1234.56", '.') == 4
  {
    var s := "1234.56";
    assert s[1..] == "234.56" && s[2..] == "34.56" && s[3..] == "4.56" && s[4..] == ".56";
  }
}
