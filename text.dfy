/** Text operations the controller borrows from Go's standard library:
    `strings.ReplaceAll` (with `Split`/`Join` as its reference description)
    and `strconv.Itoa`, over `string == seq<char>`. */
module Text {

  /** `p` occurs in `s` at index `i`. */
  predicate OccursAt(s: string, p: string, i: int)
  {
    0 <= i && i + |p| <= |s| && s[i..i + |p|] == p
  }

  /** No proper suffix of `p` is also a prefix of `p`, so two occurrences
      of `p` in a text never overlap and the left-to-right scan of
      `ReplaceAll` and `Split` finds all of them. */
  predicate NoSelfOverlap(p: string)
  {
    forall k :: 0 < k < |p| ==> p[k..] != p[..|p| - k]
  }

  ghost predicate Contains(s: string, p: string)
  {
    exists i :: OccursAt(s, p, i)
  }

  /** No character of `a` appears anywhere in `b`. */
  ghost predicate Disjoint(a: string, b: string)
  {
    forall i :: 0 <= i < |a| ==> a[i] !in b
  }

  /** `strings.ReplaceAll(s, pat, rep)`: scan left to right and replace every
      non-overlapping occurrence of `pat` by `rep`. An empty `pat` matches at
      the start and after every character. */
  function ReplaceAll(s: string, pat: string, rep: string): (r: string)
    ensures pat == rep ==> r == s
    decreases |s|
  {
    if |pat| == 0 then
      if |s| == 0 then rep else rep + [s[0]] + ReplaceAll(s[1..], pat, rep)
    else if |s| < |pat| then s
    else if s[..|pat|] == pat then
      assert s == s[..|pat|] + s[|pat|..];
      rep + ReplaceAll(s[|pat|..], pat, rep)
    else
      assert s == [s[0]] + s[1..];
      [s[0]] + ReplaceAll(s[1..], pat, rep)
  }

  /** `strings.Join`: the pieces with `sep` between consecutive ones. */
  function Join(pieces: seq<string>, sep: string): string
  {
    if |pieces| == 0 then []
    else if |pieces| == 1 then pieces[0]
    else pieces[0] + sep + Join(pieces[1..], sep)
  }

  /** `strings.Split`: cut `s` at every non-overlapping occurrence of `sep`,
      scanning left to right. Joining the pieces with `sep` gives `s` back,
      and no piece contains `sep`. */
  function Split(s: string, sep: string): (pieces: seq<string>)
    requires |sep| > 0
    ensures |pieces| > 0 && pieces[0] <= s
    ensures Join(pieces, sep) == s
    ensures forall k :: 0 <= k < |pieces| ==> !Contains(pieces[k], sep)
    decreases |s|
  {
    if |s| < |sep| then [s]
    else if s[..|sep|] == sep then
      var rest := Split(s[|sep|..], sep);
      assert ([[]] + rest)[1..] == rest;
      assert s == sep + s[|sep|..];
      [[]] + rest
    else
      var rest := Split(s[1..], sep);
      assert s == [s[0]] + s[1..];
      JoinConsFirst(s[0], rest, sep);
      FirstPieceAvoids(s, rest[0], sep);
      [[s[0]] + rest[0]] + rest[1..]
  }

  lemma JoinConsFirst(c: char, pieces: seq<string>, sep: string)
    requires |pieces| > 0
    ensures Join([[c] + pieces[0]] + pieces[1..], sep) == [c] + Join(pieces, sep)
  {
    var u := [[c] + pieces[0]] + pieces[1..];
    assert u[1..] == pieces[1..];
  }

  lemma OccursInPrefix(x: string, s: string, p: string, i: int)
    requires x <= s && OccursAt(x, p, i)
    ensures OccursAt(s, p, i)
  {
    assert s[i..i + |p|] == x[i..i + |p|];
  }

  /** A piece built by extending a `sep`-free prefix of `s[1..]` with `s[0]`
      is `sep`-free when `s` does not start with `sep`. */
  lemma FirstPieceAvoids(s: string, first: string, sep: string)
    requires 0 < |sep| <= |s| && s[..|sep|] != sep
    requires first <= s[1..] && !Contains(first, sep)
    ensures !Contains([s[0]] + first, sep)
  {
    var x := [s[0]] + first;
    if Contains(x, sep) {
      var i :| OccursAt(x, sep, i);
      assert x <= s;
      if i == 0 {
        OccursInPrefix(x, s, sep, 0);
        assert false;
      } else {
        assert x[i..i + |sep|] == first[i - 1..i - 1 + |sep|];
        assert OccursAt(first, sep, i - 1);
      }
    }
  }

  lemma PrefixAvoids(x: string, s: string, p: string)
    requires x <= s && !Contains(s, p)
    ensures !Contains(x, p)
  {
    if Contains(x, p) {
      var i :| OccursAt(x, p, i);
      OccursInPrefix(x, s, p, i);
    }
  }

  lemma SuffixAvoids(s: string, k: nat, p: string)
    requires k <= |s| && !Contains(s, p)
    ensures !Contains(s[k..], p)
  {
    forall i | 0 <= i && i + |p| <= |s| - k
      ensures !OccursAt(s[k..], p, i)
    {
      assert s[k..][i..i + |p|] == s[k + i..k + i + |p|];
      assert !OccursAt(s, p, k + i);
    }
  }

  /** Replacing every occurrence is the same as splitting at every occurrence
      and joining the pieces with the replacement. */
  lemma {:induction false} ReplaceAllIsJoinOfSplit(s: string, pat: string, rep: string)
    requires |pat| > 0
    ensures ReplaceAll(s, pat, rep) == Join(Split(s, pat), rep)
    decreases |s|
  {
    if |s| < |pat| {
    } else if s[..|pat|] == pat {
      ReplaceAllIsJoinOfSplit(s[|pat|..], pat, rep);
      var rest := Split(s[|pat|..], pat);
      assert ([[]] + rest)[1..] == rest;
    } else {
      ReplaceAllIsJoinOfSplit(s[1..], pat, rep);
      JoinConsFirst(s[0], Split(s[1..], pat), rep);
    }
  }

  /** A text without any occurrence of the pattern comes back unchanged. */
  lemma {:induction false} ReplaceAllWithoutOccurrence(s: string, pat: string, rep: string)
    requires |pat| > 0 && !Contains(s, pat)
    ensures ReplaceAll(s, pat, rep) == s
    decreases |s|
  {
    if |s| >= |pat| {
      assert !OccursAt(s, pat, 0);
      SuffixAvoids(s, 1, pat);
      ReplaceAllWithoutOccurrence(s[1..], pat, rep);
      assert s == [s[0]] + s[1..];
    }
  }

  /** A text without the separator is a single piece. */
  lemma {:induction false} SplitWithoutOccurrence(s: string, sep: string)
    requires |sep| > 0 && !Contains(s, sep)
    ensures Split(s, sep) == [s]
    decreases |s|
  {
    if |s| >= |sep| {
      assert !OccursAt(s, sep, 0);
      SuffixAvoids(s, 1, sep);
      SplitWithoutOccurrence(s[1..], sep);
      assert s == [s[0]] + s[1..];
    }
  }

  /** A separator that cannot overlap itself does not start inside a
      non-empty separator-free piece followed by the separator. */
  lemma NoSeparatorAtStart(a: string, sep: string, rest: string)
    requires |sep| > 0 && NoSelfOverlap(sep)
    requires |a| > 0 && !Contains(a, sep)
    ensures (a + sep + rest)[..|sep|] != sep
  {
    var w := a + sep + rest;
    if |a| >= |sep| {
      assert w[..|sep|] == a[..|sep|];
      assert !OccursAt(a, sep, 0);
    } else {
      var k := |a|;
      assert w[..|sep|][k..] == sep[..|sep| - k];
      assert sep[k..] != sep[..|sep| - k];
    }
  }

  /** For a separator that cannot overlap itself, the pieces are determined:
      any separator-free pieces that join to `s` are the ones `Split` gives,
      so `Split` cuts at every occurrence of the separator. */
  lemma {:induction false} SplitUnique(s: string, sep: string, pieces: seq<string>)
    requires |sep| > 0 && NoSelfOverlap(sep)
    requires |pieces| > 0 && Join(pieces, sep) == s
    requires forall k :: 0 <= k < |pieces| ==> !Contains(pieces[k], sep)
    ensures Split(s, sep) == pieces
    decreases |s|
  {
    if |pieces| == 1 {
      SplitWithoutOccurrence(s, sep);
    } else {
      var tail := Join(pieces[1..], sep);
      assert s == pieces[0] + sep + tail;
      if |pieces[0]| == 0 {
        assert s[..|sep|] == sep && s[|sep|..] == tail;
        SplitUnique(tail, sep, pieces[1..]);
        assert [[]] + pieces[1..] == pieces;
      } else {
        NoSeparatorAtStart(pieces[0], sep, tail);
        var first := pieces[0][1..];
        SuffixAvoids(pieces[0], 1, sep);
        var shorter := [first] + pieces[1..];
        assert shorter[1..] == pieces[1..];
        assert s[1..] == first + sep + tail;
        SplitUnique(s[1..], sep, shorter);
        assert [s[0]] + first == pieces[0];
        assert [[s[0]] + first] + pieces[1..] == pieces;
      }
    }
  }

  /** Gluing two `q`-free texts with a separator that shares no character
      with `q` cannot create an occurrence of `q`. */
  lemma ConcatAvoids(x: string, sep: string, y: string, q: string)
    requires |sep| > 0 && |q| > 0 && Disjoint(sep, q)
    requires !Contains(x, q) && !Contains(y, q)
    ensures !Contains(x + sep + y, q)
  {
    var w := x + sep + y;
    forall i | 0 <= i && i + |q| <= |w|
      ensures !OccursAt(w, q, i)
    {
      if i + |q| <= |x| {
        assert w[i..i + |q|] == x[i..i + |q|];
        assert !OccursAt(x, q, i);
      } else if i >= |x| + |sep| {
        var j := i - |x| - |sep|;
        assert w[i..i + |q|] == y[j..j + |q|];
        assert !OccursAt(y, q, j);
      } else {
        // the window overlaps the separator, whose characters are not in q
        var m := if i >= |x| then i else |x|;
        assert w[i..i + |q|][m - i] == sep[m - |x|];
        assert sep[m - |x|] !in q;
      }
    }
  }

  lemma {:induction false} JoinAvoids(pieces: seq<string>, sep: string, q: string)
    requires |sep| > 0 && |q| > 0 && Disjoint(sep, q)
    requires forall k :: 0 <= k < |pieces| ==> !Contains(pieces[k], q)
    ensures !Contains(Join(pieces, sep), q)
    decreases |pieces|
  {
    if |pieces| > 1 {
      JoinAvoids(pieces[1..], sep, q);
      ConcatAvoids(pieces[0], sep, Join(pieces[1..], sep), q);
    }
  }

  /** Every piece of `Split(s, sep)` is a part of `s`, so none contains a
      pattern that `s` does not contain. */
  lemma {:induction false} SplitPiecesAvoid(s: string, sep: string, q: string)
    requires |sep| > 0 && |q| > 0 && !Contains(s, q)
    ensures forall k :: 0 <= k < |Split(s, sep)| ==> !Contains(Split(s, sep)[k], q)
    decreases |s|
  {
    if |s| < |sep| {
    } else if s[..|sep|] == sep {
      SuffixAvoids(s, |sep|, q);
      SplitPiecesAvoid(s[|sep|..], sep, q);
    } else {
      SuffixAvoids(s, 1, q);
      SplitPiecesAvoid(s[1..], sep, q);
      var rest := Split(s[1..], sep);
      assert [s[0]] + rest[0] <= s;
      PrefixAvoids([s[0]] + rest[0], s, q);
    }
  }

  /** Every character `strconv.Itoa` can produce. */
  predicate IsDecimalChar(c: char)
  {
    '0' <= c <= '9' || c == '-'
  }

  predicate AllDigits(s: string)
  {
    forall i :: 0 <= i < |s| ==> '0' <= s[i] <= '9'
  }

  function DigitChar(d: nat): (c: char)
    requires d < 10
    ensures '0' <= c <= '9' && c as int - '0' as int == d
  {
    (d + '0' as int) as char
  }

  function DigitValue(c: char): nat
    requires '0' <= c <= '9'
  {
    c as int - '0' as int
  }

  /** Decimal digits of `n`, most significant first, without leading zeros. */
  function NatText(n: nat): (s: string)
    ensures |s| > 0 && AllDigits(s)
    ensures s[0] == '0' <==> n == 0
    ensures n < 10 ==> |s| == 1
    decreases n
  {
    if n < 10 then [DigitChar(n)] else NatText(n / 10) + [DigitChar(n % 10)]
  }

  /** `strconv.Itoa`: a minus sign for negative numbers, then the digits. */
  function DecimalText(n: int): (s: string)
    ensures |s| > 0 && forall i :: 0 <= i < |s| ==> IsDecimalChar(s[i])
    ensures s[0] == '-' <==> n < 0
    ensures n < 0 ==> AllDigits(s[1..])
    ensures n >= 0 ==> AllDigits(s)
    ensures n == 0 ==> s == "0"
    ensures n < 0 ==> |s| > 1 && s[1] != '0'
  {
    if n < 0 then "-" + NatText(-n) else NatText(n)
  }

  function ParseNat(s: string): nat
    requires AllDigits(s)
    decreases |s|
  {
    if |s| == 0 then 0 else ParseNat(s[..|s| - 1]) * 10 + DigitValue(s[|s| - 1])
  }

  /** `strconv.Atoi` restricted to what `DecimalText` produces. */
  function ParseDecimal(s: string): (n: int)
    requires AllDigits(s) || (|s| > 0 && s[0] == '-' && AllDigits(s[1..]))
  {
    if |s| > 0 && s[0] == '-' then 0 - ParseNat(s[1..]) as int else ParseNat(s)
  }

  lemma {:induction false} NatTextRoundTrip(n: nat)
    ensures ParseNat(NatText(n)) == n
    decreases n
  {
    if n >= 10 {
      NatTextRoundTrip(n / 10);
      var s := NatText(n);
      assert s[..|s| - 1] == NatText(n / 10);
    }
  }

  /** The decimal text of a number reads back as that number. */
  lemma DecimalTextRoundTrip(n: int)
    ensures ParseDecimal(DecimalText(n)) == n
  {
    if n < 0 {
      NatTextRoundTrip(-n);
      assert DecimalText(n)[1..] == NatText(-n);
    } else {
      NatTextRoundTrip(n);
    }
  }
}
