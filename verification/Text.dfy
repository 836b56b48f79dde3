/** Shared vocabulary: optional values. */
module Wrap {
  datatype Option<+T> = None | Some(value: T)
}

/** The string primitives that the service builds its identities from. */
module Text {

  /** The Unicode white-space set that strings.TrimSpace strips. */
  predicate IsSpace(c: char) {
    var n := c as int;
    || 9 <= n <= 13 || n == 32 || n == 0x85 || n == 0xA0 || n == 0x1680
    || 0x2000 <= n <= 0x200A || n == 0x2028 || n == 0x2029 || n == 0x202F || n == 0x205F || n == 0x3000
  }

  function TrimLeft(s: string): string {
    if s != [] && IsSpace(s[0]) then TrimLeft(s[1..]) else s
  }

  function TrimRight(s: string): string {
    if s != [] && IsSpace(s[|s| - 1]) then TrimRight(s[..|s| - 1]) else s
  }

  function TrimSpace(s: string): string {
    TrimRight(TrimLeft(s))
  }

  /** No white space at either end, so that trimming is the identity. */
  predicate Trimmed(s: string) {
    s == [] || (!IsSpace(s[0]) && !IsSpace(s[|s| - 1]))
  }

  lemma {:induction false} TrimLeftShape(s: string)
    ensures var t := TrimLeft(s); t == [] || !IsSpace(t[0])
  {
    if s != [] && IsSpace(s[0]) {
      TrimLeftShape(s[1..]);
    }
  }

  lemma {:induction false} TrimRightShape(s: string)
    ensures var t := TrimRight(s); t <= s && (t == [] || !IsSpace(t[|t| - 1]))
  {
    if s != [] && IsSpace(s[|s| - 1]) {
      TrimRightShape(s[..|s| - 1]);
    }
  }

  /** Trimming reaches a fixed point in one pass, and the fixed points are the trimmed strings. */
  lemma TrimSpaceLaws(s: string)
    ensures Trimmed(TrimSpace(s))
    ensures TrimSpace(TrimSpace(s)) == TrimSpace(s)
    ensures TrimSpace(s) == s <==> Trimmed(s)
  {
    TrimLeftShape(s);
    TrimRightShape(TrimLeft(s));
  }

  predicate AllSpace(s: string) {
    forall i :: 0 <= i < |s| ==> IsSpace(s[i])
  }

  lemma {:induction false} TrimLeftCuts(s: string) returns (head: string)
    ensures s == head + TrimLeft(s) && AllSpace(head)
  {
    head := [];
    if s != [] && IsSpace(s[0]) {
      var rest := TrimLeftCuts(s[1..]);
      head := [s[0]] + rest;
    }
  }

  lemma {:induction false} TrimRightCuts(s: string) returns (tail: string)
    ensures s == TrimRight(s) + tail && AllSpace(tail)
  {
    tail := [];
    if s != [] && IsSpace(s[|s| - 1]) {
      var rest := TrimRightCuts(s[..|s| - 1]);
      tail := rest + [s[|s| - 1]];
      assert s == s[..|s| - 1] + [s[|s| - 1]];
    }
  }

  /** Trimming cuts white space off both ends and nothing else. */
  lemma TrimSpaceCuts(s: string) returns (head: string, tail: string)
    ensures s == head + TrimSpace(s) + tail && AllSpace(head) && AllSpace(tail) && Trimmed(TrimSpace(s))
  {
    head := TrimLeftCuts(s);
    tail := TrimRightCuts(TrimLeft(s));
    TrimSpaceLaws(s);
  }

  /** The string is t between white space, and t has none at its ends. */
  ghost predicate Trims(s: string, t: string) {
    Trimmed(t) && exists head, tail :: s == head + t + tail && AllSpace(head) && AllSpace(tail)
  }

  lemma {:induction false} TrimLeftIs(head: string, t: string)
    requires AllSpace(head) && (t == [] || !IsSpace(t[0]))
    ensures TrimLeft(head + t) == t
  {
    if head == [] {
      assert head + t == t;
    } else {
      assert (head + t)[1..] == head[1..] + t;
      TrimLeftIs(head[1..], t);
    }
  }

  lemma {:induction false} TrimRightIs(t: string, tail: string)
    requires AllSpace(tail) && (t == [] || !IsSpace(t[|t| - 1]))
    ensures TrimRight(t + tail) == t
  {
    if tail == [] {
      assert t + tail == t;
    } else {
      assert (t + tail)[..|t + tail| - 1] == t + tail[..|tail| - 1];
      TrimRightIs(t, tail[..|tail| - 1]);
    }
  }

  lemma TrimSpaceIs(head: string, t: string, tail: string)
    requires AllSpace(head) && AllSpace(tail) && Trimmed(t)
    ensures TrimSpace(head + t + tail) == t
  {
    if t == [] {
      assert head + t + tail == (head + tail) + [];
      TrimLeftIs(head + tail, []);
    } else {
      assert head + t + tail == head + (t + tail);
      TrimLeftIs(head, t + tail);
      TrimRightIs(t, tail);
    }
  }

  /** What stands between white space is what trimming gives. */
  lemma TrimSpaceIff(s: string, t: string)
    ensures Trims(s, t) <==> t == TrimSpace(s)
  {
    var head, tail := TrimSpaceCuts(s);
    if Trims(s, t) {
      var head, tail :| s == head + t + tail && AllSpace(head) && AllSpace(tail);
      TrimSpaceIs(head, t, tail);
    }
  }

  /** Lower-casing, exact wherever the result is compared with an ASCII literal. */
  function LowerChar(c: char): char {
    if 'A' <= c <= 'Z' then (c as int + 32) as char
    else if c as int == 0x130 then 'i'
    else if c as int == 0x212A then 'k'
    else c
  }

  function ToLower(s: string): string {
    seq(|s|, i requires 0 <= i < |s| => LowerChar(s[i]))
  }

  predicate Contains(s: string, part: string) {
    part <= s || (s != [] && Contains(s[1..], part))
  }

  predicate At(s: string, part: string, i: int) {
    0 <= i && i + |part| <= |s| && s[i..i + |part|] == part
  }

  /** A string contains a part exactly if the part stands somewhere in it. */
  lemma {:induction false} ContainsAt(s: string, part: string)
    ensures Contains(s, part) <==> exists i :: At(s, part, i)
  {
    if s == [] {
      if Contains(s, part) {
        assert At(s, part, 0);
      }
    } else {
      ContainsAt(s[1..], part);
      if part <= s {
        assert At(s, part, 0);
      } else if i :| At(s[1..], part, i) {
        assert s[i + 1..i + 1 + |part|] == s[1..][i..i + |part|];
        assert At(s, part, i + 1);
      }
      if i :| At(s, part, i) && i > 0 {
        assert s[i..i + |part|] == s[1..][i - 1..i - 1 + |part|];
        assert At(s[1..], part, i - 1);
      }
    }
  }

  /** A character that is a given small letter, or its capital, or another that folds to it. */
  predicate Spells(c: char, letter: char) {
    || c == letter
    || ('a' <= letter <= 'z' && c as int == letter as int - 32)
    || (letter == 'i' && c as int == 0x130) || (letter == 'k' && c as int == 0x212A)
  }

  predicate Uncapital(s: string) {
    forall i :: 0 <= i < |s| ==> !('A' <= s[i] <= 'Z') && s[i] as int < 128
  }

  /** The part stands here, in whatever letter case. */
  predicate SpelledAt(s: string, part: string, i: int) {
    0 <= i && i + |part| <= |s| && forall j :: 0 <= j < |part| ==> Spells(s[i + j], part[j])
  }

  lemma LowerSpells(c: char, letter: char)
    requires !('A' <= letter <= 'Z') && letter as int < 128
    ensures LowerChar(c) == letter <==> Spells(c, letter)
  {
  }

  /** Looking for a part in the lower-cased string finds it in every spelling. */
  lemma LowerAt(s: string, part: string, i: int)
    requires Uncapital(part)
    ensures At(ToLower(s), part, i) <==> SpelledAt(s, part, i)
  {
    if 0 <= i && i + |part| <= |s| {
      var piece := ToLower(s)[i..i + |part|];
      forall j | 0 <= j < |part|
        ensures piece[j] == part[j] <==> Spells(s[i + j], part[j])
      {
        LowerSpells(s[i + j], part[j]);
      }
      assert piece == part <==> forall j :: 0 <= j < |part| ==> piece[j] == part[j];
    }
  }

  lemma LowerContains(s: string, part: string)
    requires Uncapital(part)
    ensures Contains(ToLower(s), part) <==> exists i :: SpelledAt(s, part, i)
  {
    ContainsAt(ToLower(s), part);
    if i :| At(ToLower(s), part, i) {
      LowerAt(s, part, i);
    }
    if i :| SpelledAt(s, part, i) {
      LowerAt(s, part, i);
    }
  }

  /** The separator occurs in neither head, so the first separator ends both heads. */
  lemma SplitUnique(a: string, x: string, b: string, y: string, sep: char)
    requires sep !in a && sep !in b
    requires a + [sep] + x == b + [sep] + y
    ensures a == b && x == y
  {
    var s := a + [sep] + x;
    assert s[|a|] == sep && s[|b|] == sep;
    assert |a| == |b|;
    assert a == s[..|a|] && b == s[..|b|];
    assert x == s[|a| + 1..] && y == s[|b| + 1..];
  }

  function Digit(d: int): char
    requires 0 <= d < 10
  {
    ('0' as int + d) as char
  }

  /** Decimal rendering of a non-negative integer, as strconv.FormatInt does in base ten. */
  function Decimal(n: nat): string {
    if n < 10 then [Digit(n)] else Decimal(n / 10) + [Digit(n % 10)]
  }

  lemma {:induction false} DecimalDigits(n: nat)
    ensures |Decimal(n)| > 0
    ensures forall c :: c in Decimal(n) ==> '0' <= c <= '9'
  {
    if n >= 10 {
      DecimalDigits(n / 10);
    }
  }

  lemma {:induction false} DecimalInjective(m: nat, n: nat)
    requires Decimal(m) == Decimal(n)
    ensures m == n
  {
    DecimalDigits(m / 10);
    DecimalDigits(n / 10);
    var d, e := Decimal(m), Decimal(n);
    assert d[|d| - 1] == Digit(m % 10) && e[|e| - 1] == Digit(n % 10);
    assert m % 10 == n % 10;
    if m >= 10 && n >= 10 {
      assert Decimal(m / 10) == d[..|d| - 1] == e[..|e| - 1] == Decimal(n / 10);
      DecimalInjective(m / 10, n / 10);
    }
  }

  /** Go's string order: lexicographic. */
  predicate Less(a: string, b: string) {
    b != [] && (a == [] || a[0] < b[0] || (a[0] == b[0] && Less(a[1..], b[1..])))
  }

  lemma {:induction false} LessTotal(a: string, b: string)
    ensures Less(a, b) || a == b || Less(b, a)
    ensures !(Less(a, b) && Less(b, a))
    ensures !Less(a, a)
    decreases |a|
  {
    if a != [] {
      LessTotal(a[1..], a[1..]);
      if b != [] {
        LessTotal(a[1..], b[1..]);
        if a[0] == b[0] && a[1..] == b[1..] {
          assert a == [a[0]] + a[1..] && b == [b[0]] + b[1..];
        }
      }
    }
  }

  /** At the first difference the lesser string has the lesser character, or ends. */
  lemma {:induction false} LessMeans(a: string, b: string)
    ensures Less(a, b) <==> exists k :: 0 <= k <= |a| && k <= |b| && a[..k] == b[..k]
                                        && k < |b| && (k == |a| || a[k] < b[k])
    decreases |a|
  {
    if Less(a, b) {
      var k := FirstDifference(a, b);
    }
    if k :| 0 <= k <= |a| && k <= |b| && a[..k] == b[..k] && k < |b| && (k == |a| || a[k] < b[k]) {
      DifferenceDecides(a, b, k);
    }
  }

  lemma {:induction false} FirstDifference(a: string, b: string) returns (k: nat)
    requires Less(a, b)
    ensures k <= |a| && k < |b| && a[..k] == b[..k] && (k == |a| || a[k] < b[k])
  {
    k := 0;
    if a != [] && a[0] == b[0] {
      var rest := FirstDifference(a[1..], b[1..]);
      k := rest + 1;
      assert a[..k] == [a[0]] + a[1..][..rest] && b[..k] == [b[0]] + b[1..][..rest];
    }
  }

  lemma {:induction false} DifferenceDecides(a: string, b: string, k: nat)
    requires k <= |a| && k < |b| && a[..k] == b[..k] && (k == |a| || a[k] < b[k])
    ensures Less(a, b)
  {
    if k > 0 {
      assert a[0] == a[..k][0] == b[..k][0] == b[0];
      assert a[1..][..k - 1] == a[..k][1..] && b[1..][..k - 1] == b[..k][1..];
      DifferenceDecides(a[1..], b[1..], k - 1);
    }
  }

  lemma {:induction false} LessTransitive(a: string, b: string, c: string)
    requires Less(a, b) && Less(b, c)
    ensures Less(a, c)
  {
    if a != [] && a[0] == b[0] && b[0] == c[0] {
      LessTransitive(a[1..], b[1..], c[1..]);
    }
  }
}

/** The order of rows by time and then identifier, the later one first. */
module Recency {
  import Text

  /** The zero time of Go, before every time that is set. */
  const ZERO_TIME := 0

  datatype Stamp = Stamp(at: int, id: string)

  predicate Newer(a: Stamp, b: Stamp) {
    a.at > b.at || (a.at == b.at && Text.Less(b.id, a.id))
  }

  lemma NewerTotal(a: Stamp, b: Stamp)
    ensures !(Newer(a, b) && Newer(b, a))
    ensures a.id != b.id ==> Newer(a, b) || Newer(b, a)
  {
    Text.LessTotal(a.id, b.id);
  }

  lemma NewerTransitive(a: Stamp, b: Stamp, c: Stamp)
    requires Newer(a, b) && Newer(b, c)
    ensures Newer(a, c)
  {
    if a.at == b.at == c.at {
      Text.LessTransitive(c.id, b.id, a.id);
    }
  }
}
