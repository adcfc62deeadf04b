/**
 * The operations of java.lang.String and java.lang.Integer that the parsers use, on
 * `string` = `seq<char>`: digits and decimal values, zero/space padding as String.format
 * writes it, ASCII case folding, trim, indexOf/lastIndexOf/contains and replace.
 */
module Text {
  import opened Wrappers

  predicate IsDigit(c: char) {
    '0' <= c <= '9'
  }

  predicate AllDigits(s: string) {
    forall i :: 0 <= i < |s| ==> IsDigit(s[i])
  }

  function DigitValue(c: char): nat
    requires IsDigit(c)
  {
    c as int - '0' as int
  }

  function DigitChar(d: nat): (c: char)
    requires d < 10
    ensures IsDigit(c) && DigitValue(c) == d
  {
    ('0' as int + d) as char
  }

  /** The value Integer.parseInt gives a run of ASCII digits (its 32-bit limit is not modelled). */
  function DecimalValue(s: string): nat
    requires AllDigits(s)
  {
    if s == [] then 0 else DecimalValue(s[..|s| - 1]) * 10 + DigitValue(s[|s| - 1])
  }

  /** Integer.toString(n) for n >= 0: the shortest decimal numeral, read back as n. */
  function Decimal(n: nat): (r: string)
    ensures 1 <= |r| && AllDigits(r)
    ensures DecimalValue(r) == n
    ensures r[0] == '0' ==> n == 0
  {
    if n < 10 then [DigitChar(n)]
    else
      var r := Decimal(n / 10) + [DigitChar(n % 10)];
      assert r[..|r| - 1] == Decimal(n / 10);
      r
  }

  function Repeat(c: char, n: nat): (r: string)
    ensures |r| == n && forall i :: 0 <= i < n ==> r[i] == c
  {
    seq(n, _ => c)
  }

  /** String.format("%0<width>d", n): the numeral, left-padded with zeros to `width`. */
  function ZeroPadded(n: nat, width: nat): string {
    var d := Decimal(n);
    if |d| >= width then d else Repeat('0', width - |d|) + d
  }

  /** The zero-padded numeral is all digits, at least `width` long, and reads back as n. */
  lemma ZeroPaddedReadsBack(n: nat, width: nat)
    ensures var r := ZeroPadded(n, width);
      AllDigits(r) && |r| >= width && |r| >= 1 && DecimalValue(r) == n
  {
    var d := Decimal(n);
    if |d| < width {
      LeadingZerosLemma(width - |d|, d);
    }
  }

  /** String.format("%<width>d", n): the numeral, left-padded with spaces to `width`. */
  function SpacePadded(n: nat, width: nat): string {
    var d := Decimal(n);
    if |d| >= width then d else Repeat(' ', width - |d|) + d
  }

  /** The padded numeral is `width` long unless the numeral is longer, and is spaces then the numeral. */
  lemma SpacePaddedShape(n: nat, width: nat)
    ensures var r := SpacePadded(n, width);
      |r| == (if |Decimal(n)| >= width then |Decimal(n)| else width) &&
      EndsWith(r, Decimal(n)) && forall i :: 0 <= i < |r| - |Decimal(n)| ==> r[i] == ' '
  {
  }

  lemma {:induction false} DecimalValueAppend(s: string, c: char)
    requires AllDigits(s) && IsDigit(c)
    ensures AllDigits(s + [c]) && DecimalValue(s + [c]) == DecimalValue(s) * 10 + DigitValue(c)
  {
    assert (s + [c])[..|s + [c]| - 1] == s;
  }

  /** Leading zeros do not change the value of a numeral. */
  lemma {:induction false} LeadingZerosLemma(k: nat, d: string)
    requires AllDigits(d)
    ensures AllDigits(Repeat('0', k) + d) && DecimalValue(Repeat('0', k) + d) == DecimalValue(d)
  {
    var z := Repeat('0', k);
    if d == [] {
      ZerosValue(k);
      assert z + d == z;
    } else {
      var init := d[..|d| - 1];
      LeadingZerosLemma(k, init);
      assert z + d == (z + init) + [d[|d| - 1]];
      DecimalValueAppend(z + init, d[|d| - 1]);
    }
  }

  /** Integer.toString gives back a numeral that has no leading zero. */
  lemma {:induction false} NumeralRoundTrip(d: string)
    requires AllDigits(d) && |d| >= 1 && d[0] != '0'
    ensures Decimal(DecimalValue(d)) == d
    decreases |d|
  {
    var last := d[|d| - 1];
    assert DigitChar(DigitValue(last)) == last;
    if |d| > 1 {
      var init := d[..|d| - 1];
      NumeralRoundTrip(init);
      var v := DecimalValue(d);
      assert DecimalValue(init) != 0;
      assert v / 10 == DecimalValue(init) && v % 10 == DigitValue(last);
      assert d == init + [last];
    }
  }

  lemma {:induction false} ZerosValue(k: nat)
    ensures AllDigits(Repeat('0', k)) && DecimalValue(Repeat('0', k)) == 0
  {
    if k > 0 {
      ZerosValue(k - 1);
      assert Repeat('0', k)[..k - 1] == Repeat('0', k - 1);
    }
  }

  function LowerChar(c: char): char {
    if 'A' <= c <= 'Z' then (c as int + 32) as char else c
  }

  /** String.toLowerCase on ASCII letters; every other character is kept. */
  function Lower(s: string): (r: string)
    ensures |r| == |s| && forall i :: 0 <= i < |s| ==> r[i] == LowerChar(s[i])
  {
    seq(|s|, i requires 0 <= i < |s| => LowerChar(s[i]))
  }

  /** The characters String.trim removes: every code point up to U+0020. */
  predicate Trimmable(c: char) {
    c <= ' '
  }

  function FirstKept(s: string, i: nat): (k: nat)
    requires i <= |s|
    ensures i <= k <= |s| && (k < |s| ==> !Trimmable(s[k]))
    ensures forall j :: i <= j < k ==> Trimmable(s[j])
    decreases |s| - i
  {
    if i < |s| && Trimmable(s[i]) then FirstKept(s, i + 1) else i
  }

  function KeptEnd(s: string, j: nat): (k: nat)
    requires j <= |s|
    ensures k <= j && (k > 0 ==> !Trimmable(s[k - 1]))
    ensures forall i :: k <= i < j ==> Trimmable(s[i])
  {
    if j > 0 && Trimmable(s[j - 1]) then KeptEnd(s, j - 1) else j
  }

  /** r is s[a..b], and everything outside that infix is trimmable. */
  predicate StrippedAt(s: string, r: string, a: nat, b: nat) {
    a <= b <= |s| && r == s[a..b] &&
    (forall i :: 0 <= i < a ==> Trimmable(s[i])) && (forall i :: b <= i < |s| ==> Trimmable(s[i]))
  }

  /** String.trim: the longest infix whose first and last characters are above U+0020. */
  function Trim(s: string): (r: string)
    ensures exists a: nat, b: nat :: StrippedAt(s, r, a, b)
    ensures |r| <= |s|
    ensures r == [] || (!Trimmable(r[0]) && !Trimmable(r[|r| - 1]))
    ensures forall c :: c in r ==> c in s
    ensures (forall i :: 0 <= i < |s| ==> Trimmable(s[i])) <==> r == []
    ensures s != [] && !Trimmable(s[0]) && !Trimmable(s[|s| - 1]) ==> r == s
  {
    var a := FirstKept(s, 0);
    var b := KeptEnd(s, |s|);
    if a < b then
      assert a < |s| && !Trimmable(s[a]);
      assert StrippedAt(s, s[a..b], a, b);
      s[a..b]
    else
      assert forall i :: 0 <= i < |s| ==> Trimmable(s[i]);
      assert StrippedAt(s, [], 0, 0);
      []
  }

  predicate StartsWith(s: string, t: string) {
    |t| <= |s| && s[..|t|] == t
  }

  predicate EndsWith(s: string, t: string) {
    |t| <= |s| && s[|s| - |t|..] == t
  }

  predicate OccursAt(s: string, t: string, i: nat) {
    i + |t| <= |s| && s[i..i + |t|] == t
  }

  function IndexOfFrom(s: string, t: string, i: nat): (r: Option<nat>)
    ensures r.Some? ==> i <= r.value && OccursAt(s, t, r.value)
    ensures r.Some? ==> forall k :: i <= k < r.value ==> !OccursAt(s, t, k)
    ensures r.None? ==> forall k :: i <= k ==> !OccursAt(s, t, k)
    decreases |s| - i
  {
    if i + |t| > |s| then None
    else if s[i..i + |t|] == t then Some(i)
    else IndexOfFrom(s, t, i + 1)
  }

  /** String.indexOf(t): the first position where t occurs, if any. */
  function IndexOf(s: string, t: string): (r: Option<nat>)
    ensures r.Some? ==> OccursAt(s, t, r.value) && forall k :: 0 <= k < r.value ==> !OccursAt(s, t, k)
    ensures r.None? ==> forall k :: 0 <= k ==> !OccursAt(s, t, k)
  {
    IndexOfFrom(s, t, 0)
  }

  /** pre is s up to the first occurrence of t: what s.substring(0, s.indexOf(t)) gives. */
  predicate PrefixBeforeFirst(s: string, t: string, pre: string) {
    |pre| <= |s| && pre == s[..|pre|] && OccursAt(s, t, |pre|) && forall q :: 0 <= q < |pre| ==> !OccursAt(s, t, q)
  }

  /** String.contains(t). */
  predicate Contains(s: string, t: string) {
    IndexOf(s, t).Some?
  }

  lemma OccursImpliesContains(s: string, t: string, i: nat)
    requires OccursAt(s, t, i)
    ensures Contains(s, t) && IndexOf(s, t).value <= i
  {
  }

  function LastIndexFrom(s: string, t: string, k: nat): (r: Option<nat>)
    ensures r.Some? ==> r.value <= k && OccursAt(s, t, r.value)
    ensures r.Some? ==> forall j :: r.value < j <= k ==> !OccursAt(s, t, j)
    ensures r.None? ==> forall j :: 0 <= j <= k ==> !OccursAt(s, t, j)
  {
    if OccursAt(s, t, k) then Some(k)
    else if k == 0 then None
    else LastIndexFrom(s, t, k - 1)
  }

  /** A one-character string is contained exactly when the character is. */
  lemma ContainsChar(s: string, c: char)
    ensures Contains(s, [c]) <==> c in s
  {
    if Contains(s, [c]) {
      OccursChar(s, c, IndexOf(s, [c]).value);
    }
    if c in s {
      var j :| 0 <= j < |s| && s[j] == c;
      OccursChar(s, c, j);
      OccursImpliesContains(s, [c], j);
    }
  }

  /** A one-character string occurs exactly where that character is. */
  lemma OccursChar(s: string, c: char, j: nat)
    ensures OccursAt(s, [c], j) <==> j < |s| && s[j] == c
  {
    if j < |s| {
      assert s[j..j + 1] == [s[j]];
    }
  }

  /** lastIndexOf of a single character: its last position, or none when the character is absent. */
  lemma LastIndexOfChar(s: string, c: char)
    ensures LastIndexOf(s, [c]).None? <==> c !in s
    ensures LastIndexOf(s, [c]).Some? ==>
      var i := LastIndexOf(s, [c]).value; i < |s| && s[i] == c && c !in s[i + 1..]
  {
    match LastIndexOf(s, [c])
    case None =>
      forall j | 0 <= j < |s| ensures s[j] != c {
        OccursChar(s, c, j);
      }
    case Some(i) =>
      OccursChar(s, c, i);
      forall j | i < j < |s| ensures s[j] != c {
        OccursChar(s, c, j);
      }
      var t := s[i + 1..];
      assert forall j :: 0 <= j < |t| ==> t[j] == s[i + 1 + j];
  }

  /** String.lastIndexOf(t): the last position where t occurs, if any. */
  function LastIndexOf(s: string, t: string): (r: Option<nat>)
    ensures r.Some? ==> OccursAt(s, t, r.value) && forall j :: r.value < j ==> !OccursAt(s, t, j)
    ensures r.None? ==> forall j :: 0 <= j ==> !OccursAt(s, t, j)
  {
    LastIndexFrom(s, t, |s|)
  }

  /**
   * String.replace(t, r): every occurrence of t, found left to right without overlap,
   * replaced by r.
   */
  function ReplaceAll(s: string, t: string, r: string): (u: string)
    requires |t| > 0
    decreases |s|
  {
    match IndexOf(s, t)
    case None => s
    case Some(i) => s[..i] + r + ReplaceAll(s[i + |t|..], t, r)
  }

  /** String.replace(t, ""). */
  function Remove(s: string, t: string): (u: string)
    requires |t| > 0
  {
    ReplaceAll(s, t, "")
  }

  /** Removing t cuts out its first occurrence and goes on after it. */
  lemma RemoveFirst(s: string, t: string, i: nat)
    requires |t| > 0 && OccursAt(s, t, i) && forall k :: 0 <= k < i ==> !OccursAt(s, t, k)
    ensures IndexOf(s, t) == Some(i)
    ensures Remove(s, t) == s[..i] + Remove(s[i + |t|..], t)
  {
  }

  /** Removing a target never lengthens the text, and removes something whenever it occurs. */
  lemma {:induction false} RemoveShortens(s: string, t: string)
    requires |t| > 0
    ensures |Remove(s, t)| <= |s|
    ensures Contains(s, t) ==> |Remove(s, t)| <= |s| - |t|
    decreases |s|
  {
    match IndexOf(s, t)
    case None =>
    case Some(i) =>
      RemoveShortens(s[i + |t|..], t);
  }

  /** Removing a target introduces no character that was not there before. */
  lemma {:induction false} RemoveKeepsChars(s: string, t: string, c: char)
    requires |t| > 0 && c in Remove(s, t)
    ensures c in s
    decreases |s|
  {
    match IndexOf(s, t)
    case None =>
    case Some(i) =>
      var rest := s[i + |t|..];
      assert Remove(s, t) == s[..i] + Remove(rest, t);
      if c in s[..i] {
      } else {
        RemoveKeepsChars(rest, t, c);
      }
  }

  /** String.replace(a, b) for single characters. */
  function ReplaceChar(s: string, a: char, b: char): (r: string)
    ensures |r| == |s| && forall i :: 0 <= i < |s| ==> r[i] == (if s[i] == a then b else s[i])
  {
    seq(|s|, i requires 0 <= i < |s| => if s[i] == a then b else s[i])
  }

  /** Replacing a one-character string is replacing that character everywhere. */
  lemma {:induction false} ReplaceOneCharLemma(s: string, a: char, b: char)
    ensures ReplaceAll(s, [a], [b]) == ReplaceChar(s, a, b)
    decreases |s|
  {
    match IndexOf(s, [a])
    case None =>
      NoCharBefore(s, a, |s|);
      ReplaceAbsent(s, a, b);
    case Some(i) =>
      NoCharBefore(s, a, i);
      assert s[i..i + 1] == [a];
      ReplaceOneCharLemma(s[i + 1..], a, b);
      ReplaceCharSplit(s, a, b, i);
  }

  lemma NoCharBefore(s: string, a: char, n: nat)
    requires n <= |s| && forall k :: 0 <= k < n ==> !OccursAt(s, [a], k)
    ensures forall k :: 0 <= k < n ==> s[k] != a
  {
    forall k | 0 <= k < n ensures s[k] != a {
      assert !OccursAt(s, [a], k);
      assert s[k..k + 1] == [s[k]];
    }
  }

  lemma ReplaceAbsent(s: string, a: char, b: char)
    requires forall k :: 0 <= k < |s| ==> s[k] != a
    ensures ReplaceChar(s, a, b) == s
  {
  }

  lemma ReplaceCharSplit(s: string, a: char, b: char, i: nat)
    requires i < |s| && s[i] == a && forall k :: 0 <= k < i ==> s[k] != a
    ensures ReplaceChar(s, a, b) == s[..i] + [b] + ReplaceChar(s[i + 1..], a, b)
  {
    var u := s[..i] + [b] + ReplaceChar(s[i + 1..], a, b);
    forall k | 0 <= k < |s| ensures u[k] == ReplaceChar(s, a, b)[k] {
      if k > i {
        assert u[k] == ReplaceChar(s[i + 1..], a, b)[k - i - 1];
      }
    }
  }
}
