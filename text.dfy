/** Byte strings and the few operations of Go's `strings` and `fmt`
    packages that the key-binding logic relies on.  A Go `string` is a
    sequence of bytes, so it is modelled as `seq<byte>`. */
module Text {
  import opened Wrappers

  newtype byte = b: int | 0 <= b < 256

  type Bytes = seq<byte>

  /** The bytes of an ASCII string literal. */
  function Ascii(s: string): (r: Bytes)
    requires forall i | 0 <= i < |s| :: s[i] as int < 128
    ensures |r| == |s|
    ensures forall i | 0 <= i < |s| :: r[i] as int == s[i] as int
  {
    seq(|s|, i requires 0 <= i < |s| => s[i] as int as byte)
  }

  // ---------------------------------------------------------------------
  // strings.TrimSpace, restricted to ASCII white space
  // ---------------------------------------------------------------------

  /** Tab, newline, vertical tab, form feed, carriage return and space. */
  predicate IsSpace(b: byte) {
    b == 9 || b == 10 || b == 11 || b == 12 || b == 13 || b == 32
  }

  predicate AllSpace(s: Bytes) {
    forall i | 0 <= i < |s| :: IsSpace(s[i])
  }

  /** Neither end of `s` is white space. */
  predicate Trimmed(s: Bytes) {
    s == [] || (!IsSpace(s[0]) && !IsSpace(s[|s| - 1]))
  }

  /** Drops the leading white space. */
  function TrimLeft(s: Bytes): Bytes {
    if s != [] && IsSpace(s[0]) then TrimLeft(s[1..]) else s
  }

  /** Drops the trailing white space. */
  function TrimRight(s: Bytes): Bytes {
    if s != [] && IsSpace(s[|s| - 1]) then TrimRight(s[..|s| - 1]) else s
  }

  function TrimSpace(s: Bytes): Bytes {
    TrimRight(TrimLeft(s))
  }

  /** What TrimLeft keeps is a suffix of `s` that does not start with
      white space, and all it drops is white space. */
  lemma {:induction false} TrimLeftShape(s: Bytes)
    ensures var r := TrimLeft(s);
      && |r| <= |s| && r == s[|s| - |r|..]
      && AllSpace(s[..|s| - |r|])
      && (r == [] || !IsSpace(r[0]))
  {
    if s != [] && IsSpace(s[0]) {
      var t := s[1..];
      TrimLeftShape(t);
      var r := TrimLeft(t);
      assert r == TrimLeft(s);
      assert t[|t| - |r|..] == s[|s| - |r|..];
      assert s[..|s| - |r|] == [s[0]] + t[..|t| - |r|];
    }
  }

  /** What TrimRight keeps is a prefix of `s` that does not end with
      white space, and all it drops is white space. */
  lemma {:induction false} TrimRightShape(s: Bytes)
    ensures var r := TrimRight(s);
      && |r| <= |s| && r == s[..|r|]
      && AllSpace(s[|r|..])
      && (r == [] || !IsSpace(r[|r| - 1]))
  {
    if s != [] && IsSpace(s[|s| - 1]) {
      var t := s[..|s| - 1];
      TrimRightShape(t);
      var r := TrimRight(t);
      assert r == TrimRight(s);
      assert t[..|r|] == s[..|r|];
      assert s[|r|..] == t[|r|..] + [s[|s| - 1]];
    }
  }

  /** TrimSpace leaves white space at neither end and never makes the
      value longer. */
  lemma TrimSpaceShape(s: Bytes)
    ensures Trimmed(TrimSpace(s))
    ensures |TrimSpace(s)| <= |s|
  {
    var l := TrimLeft(s);
    TrimLeftShape(s);
    TrimRightShape(l);
    var r := TrimRight(l);
    if r != [] {
      assert r[0] == l[0];
    }
  }

  lemma {:induction false} TrimLeftSpaces(p: Bytes, t: Bytes)
    requires AllSpace(p)
    requires t == [] || !IsSpace(t[0])
    ensures TrimLeft(p + t) == t
  {
    if p != [] {
      assert (p + t)[1..] == p[1..] + t;
      TrimLeftSpaces(p[1..], t);
    }
  }

  lemma {:induction false} TrimRightSpaces(t: Bytes, q: Bytes)
    requires AllSpace(q)
    requires t == [] || !IsSpace(t[|t| - 1])
    ensures TrimRight(t + q) == t
  {
    if q != [] {
      assert (t + q)[..|t + q| - 1] == t + q[..|q| - 1];
      TrimRightSpaces(t, q[..|q| - 1]);
    }
  }

  /** TrimSpace removes exactly the white-space padding around a trimmed
      value: this characterises it completely. */
  lemma TrimSpacePadding(p: Bytes, v: Bytes, q: Bytes)
    requires AllSpace(p) && AllSpace(q) && Trimmed(v)
    ensures TrimSpace(p + v + q) == v
  {
    if v == [] {
      assert p + v + q == p + q;
      TrimLeftSpaces(p + q, []);
      assert p + q + [] == p + q;
    } else {
      assert p + v + q == p + (v + q);
      TrimLeftSpaces(p, v + q);
    }
    TrimRightSpaces(v, q);
  }

  /** A value that is already trimmed is left as it is. */
  lemma TrimSpaceOfTrimmed(v: Bytes)
    requires Trimmed(v)
    ensures TrimSpace(v) == v
  {
    TrimSpacePadding([], v, []);
    assert [] + v + [] == v;
  }

  // ---------------------------------------------------------------------
  // strings.SplitN(s, sep, 2) for a one-byte separator
  // ---------------------------------------------------------------------

  /** The position of the first `c` in `s`, if any. */
  function IndexOf(s: Bytes, c: byte): (r: Option<nat>)
    ensures r.None? <==> c !in s
    ensures r.Some? ==> r.value < |s| && s[r.value] == c && c !in s[..r.value]
  {
    if s == [] then None
    else if s[0] == c then Some(0)
    else match IndexOf(s[1..], c)
      case None => None
      case Some(i) =>
        assert s[..i + 1] == [s[0]] + s[1..][..i];
        Some(i + 1)
  }

  /** `SplitN(s, sep, 2)`: the text before the first `sep` and the text
      after it, or None when there is no `sep` (Go then returns one
      piece). */
  function SplitFirst(s: Bytes, sep: byte): (r: Option<(Bytes, Bytes)>)
    ensures r.None? <==> sep !in s
    ensures r.Some? ==> sep !in r.value.0 && r.value.0 + [sep] + r.value.1 == s
  {
    match IndexOf(s, sep)
    case None => None
    case Some(i) =>
      assert s[..i] + [sep] + s[i + 1..] == s;
      Some((s[..i], s[i + 1..]))
  }

  /** Splitting a joined pair gives the pair back when the first part
      holds no separator. */
  lemma SplitFirstJoin(k: Bytes, v: Bytes, sep: byte)
    requires sep !in k
    ensures SplitFirst(k + [sep] + v, sep) == Some((k, v))
  {
    var s := k + [sep] + v;
    assert s[|k|] == sep;
    var r := SplitFirst(s, sep);
    var i := IndexOf(s, sep).value;
    assert s[..i] == k;
    assert s[i + 1..] == v;
  }

  // ---------------------------------------------------------------------
  // strings.ReplaceAll with a non-empty pattern
  // ---------------------------------------------------------------------

  predicate OccursAt(s: Bytes, pat: Bytes, i: int) {
    0 <= i && i + |pat| <= |s| && s[i..i + |pat|] == pat
  }

  /** Replaces every occurrence of `pat`, scanning from the left and
      never letting two replaced occurrences overlap. */
  function ReplaceAll(s: Bytes, pat: Bytes, rep: Bytes): (r: Bytes)
    requires |pat| > 0
    decreases |s|
  {
    if |s| < |pat| then s
    else if s[..|pat|] == pat then rep + ReplaceAll(s[|pat|..], pat, rep)
    else [s[0]] + ReplaceAll(s[1..], pat, rep)
  }

  /** Text in which the pattern never occurs is left unchanged. */
  lemma {:induction false} ReplaceAllAbsent(s: Bytes, pat: Bytes, rep: Bytes)
    requires |pat| > 0
    requires forall i | 0 <= i < |s| :: !OccursAt(s, pat, i)
    ensures ReplaceAll(s, pat, rep) == s
    decreases |s|
  {
    if |s| >= |pat| {
      assert !OccursAt(s, pat, 0);
      forall i | 0 <= i < |s[1..]| ensures !OccursAt(s[1..], pat, i) {
        assert !OccursAt(s, pat, i + 1);
        if i + |pat| <= |s[1..]| {
          assert s[1..][i..i + |pat|] == s[i + 1..i + 1 + |pat|];
        }
      }
      ReplaceAllAbsent(s[1..], pat, rep);
    }
  }

  /** Replacing the pattern by itself changes nothing. */
  lemma {:induction false} ReplaceAllSelf(s: Bytes, pat: Bytes)
    requires |pat| > 0
    ensures ReplaceAll(s, pat, pat) == s
    decreases |s|
  {
    if |s| >= |pat| {
      if s[..|pat|] == pat {
        ReplaceAllSelf(s[|pat|..], pat);
        assert pat + s[|pat|..] == s;
      } else {
        ReplaceAllSelf(s[1..], pat);
        assert [s[0]] + s[1..] == s;
      }
    }
  }

  /** The leftmost occurrence is replaced, the text before it is kept,
      and replacement goes on after it. */
  lemma {:induction false} ReplaceAllAfter(a: Bytes, pat: Bytes, rep: Bytes, t: Bytes)
    requires |pat| > 0
    requires forall i | 0 <= i < |a| :: !OccursAt(a + pat + t, pat, i)
    ensures ReplaceAll(a + pat + t, pat, rep) == a + rep + ReplaceAll(t, pat, rep)
    decreases |a|
  {
    var s := a + pat + t;
    if a == [] {
      assert s == pat + t;
      assert s[..|pat|] == pat && s[|pat|..] == t;
    } else {
      assert !OccursAt(s, pat, 0);
      assert s[..|pat|] != pat;
      var s' := a[1..] + pat + t;
      assert s[1..] == s';
      forall i | 0 <= i < |a[1..]| ensures !OccursAt(s', pat, i) {
        assert !OccursAt(s, pat, i + 1);
        assert s'[i..i + |pat|] == s[i + 1..i + 1 + |pat|];
      }
      ReplaceAllAfter(a[1..], pat, rep, t);
      assert [a[0]] + (a[1..] + rep + ReplaceAll(t, pat, rep)) == a + rep + ReplaceAll(t, pat, rep);
    }
  }

  // ---------------------------------------------------------------------
  // fmt.Sprintf("%d", n) for a natural number
  // ---------------------------------------------------------------------

  predicate IsDigit(b: byte) {
    48 <= b <= 57
  }

  predicate AllDigits(s: Bytes) {
    forall i | 0 <= i < |s| :: IsDigit(s[i])
  }

  /** The value of a string of decimal digits. */
  function DigitsValue(s: Bytes): nat
    requires AllDigits(s)
  {
    if s == [] then 0 else DigitsValue(s[..|s| - 1]) * 10 + (s[|s| - 1] - 48) as nat
  }

  /** The decimal rendering of `n`: at least one digit, and no leading
      zero unless `n` is zero. */
  function Decimal(n: nat): (r: Bytes)
    ensures |r| >= 1 && AllDigits(r)
    ensures r[0] == 48 ==> n == 0
  {
    if n < 10 then [(48 + n) as byte] else Decimal(n / 10) + [(48 + n % 10) as byte]
  }

  /** Reading the rendering back gives the number. */
  lemma {:induction false} DecimalRoundTrip(n: nat)
    ensures DigitsValue(Decimal(n)) == n
  {
    if n >= 10 {
      var d := Decimal(n);
      assert d[..|d| - 1] == Decimal(n / 10);
      DecimalRoundTrip(n / 10);
    }
  }

  /** Different numbers have different renderings. */
  lemma DecimalInjective(m: nat, n: nat)
    requires Decimal(m) == Decimal(n)
    ensures m == n
  {
    DecimalRoundTrip(m);
    DecimalRoundTrip(n);
  }
}
