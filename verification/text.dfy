/**
 String operations the route handlers use, written out over `seq<char>`:
 `String.prototype.includes`, `split` on one character and its inverse `join`,
 the last piece of a split, ASCII lower-casing, and the decimal rendering of a
 non-negative integer (as in a template literal `${n}`).
 */
module Text {

  /** `p` is a prefix of `s`. */
  predicate StartsWith(s: string, p: string) {
    |p| <= |s| && s[..|p|] == p
  }

  /** `t` is a suffix of `s`. */
  predicate EndsWith(s: string, t: string) {
    |t| <= |s| && s[|s| - |t|..] == t
  }

  /** `sub` occurs in `s` starting at position `i`. */
  predicate OccursAt(s: string, sub: string, i: int) {
    0 <= i && i + |sub| <= |s| && s[i..i + |sub|] == sub
  }

  /** `s.includes(sub)`, scanning start positions left to right. */
  function Contains(s: string, sub: string): (r: bool)
    ensures r <==> exists i :: OccursAt(s, sub, i)
    decreases |s|
  {
    if StartsWith(s, sub) then
      assert OccursAt(s, sub, 0);
      true
    else if |s| == 0 then
      false
    else
      var r := Contains(s[1..], sub);
      if r then
        var i :| OccursAt(s[1..], sub, i);
        assert s[1..][i..i + |sub|] == s[i + 1..i + 1 + |sub|];
        assert OccursAt(s, sub, i + 1);
        true
      else
        assert forall i :: OccursAt(s, sub, i) ==> OccursAt(s[1..], sub, i - 1) by {
          forall i | OccursAt(s, sub, i)
            ensures OccursAt(s[1..], sub, i - 1)
          {
            assert i != 0;
            assert s[1..][i - 1..i - 1 + |sub|] == s[i..i + |sub|];
          }
        }
        false
  }

  /** `s.split(sep)`: the pieces of `s` between occurrences of `sep`, in order.
      There is always at least one piece, and the empty string splits into `[""]`. */
  function Split(s: string, sep: char): (parts: seq<string>)
    ensures |parts| >= 1
    decreases |s|
  {
    if |s| == 0 then [""]
    else
      var init := Split(s[..|s| - 1], sep);
      var x := s[|s| - 1];
      if x == sep then init + [""]
      else init[..|init| - 1] + [init[|init| - 1] + [x]]
  }

  /** `parts.join(sep)`. */
  function Join(parts: seq<string>, sep: char): string
    requires |parts| >= 1
  {
    if |parts| == 1 then parts[0]
    else Join(parts[..|parts| - 1], sep) + [sep] + parts[|parts| - 1]
  }

  /** The last piece of a split (what `pop()` returns): the rest of the pieces
      followed by it make up the whole list. */
  function Last(parts: seq<string>): (piece: string)
    requires |parts| >= 1
    ensures exists rest :: parts == rest + [piece]
  {
    assert parts == parts[..|parts| - 1] + [parts[|parts| - 1]];
    parts[|parts| - 1]
  }

  /** Reference definition of the last piece: the longest suffix of `s` free
      of `sep`. It is either all of `s` or starts right after a `sep`. */
  function LastSegment(s: string, sep: char): (t: string)
    ensures EndsWith(s, t) && sep !in t
    ensures |t| == |s| || s[|s| - |t| - 1] == sep
    decreases |s|
  {
    if |s| == 0 then ""
    else if s[|s| - 1] == sep then ""
    else
      var p, x := s[..|s| - 1], s[|s| - 1];
      var t := LastSegment(p, sep);
      assert s == p + [x];
      assert s[|s| - |t| - 1..] == p[|p| - |t|..] + [x];
      assert |t| < |p| ==> s[|s| - |t| - 2] == p[|p| - |t| - 1];
      t + [x]
  }

  /** Appending a character to the last piece appends it to the joined string. */
  lemma JoinExtendLast(parts: seq<string>, sep: char, x: char)
    requires |parts| >= 1
    ensures Join(parts[..|parts| - 1] + [Last(parts) + [x]], sep) == Join(parts, sep) + [x]
  {
    var q := parts[..|parts| - 1] + [Last(parts) + [x]];
    if |parts| > 1 {
      assert q[..|q| - 1] == parts[..|parts| - 1];
    }
  }

  /** Joining the pieces of a split with the same separator gives back the string. */
  lemma {:induction false} JoinSplit(s: string, sep: char)
    ensures Join(Split(s, sep), sep) == s
    decreases |s|
  {
    if |s| > 0 {
      var p, x := s[..|s| - 1], s[|s| - 1];
      var init := Split(p, sep);
      assert s == p + [x];
      SplitSnoc(p, sep, x);
      JoinSplit(p, sep);
      if x == sep {
        JoinSnocEmpty(init, sep);
      } else {
        JoinExtendLast(init, sep, x);
      }
    }
  }

  /** Adding an empty last piece appends one separator to the joined string. */
  lemma JoinSnocEmpty(parts: seq<string>, sep: char)
    requires |parts| >= 1
    ensures Join(parts + [""], sep) == Join(parts, sep) + [sep]
  {
    assert (parts + [""])[..|parts|] == parts;
  }

  /** No piece of a split contains the separator. */
  lemma {:induction false} SplitPiecesAvoidSeparator(s: string, sep: char)
    ensures forall i :: 0 <= i < |Split(s, sep)| ==> sep !in Split(s, sep)[i]
    decreases |s|
  {
    if |s| > 0 {
      var p, x := s[..|s| - 1], s[|s| - 1];
      assert s == p + [x];
      SplitPiecesAvoidSeparator(p, sep);
      SplitSnoc(p, sep, x);
    }
  }

  /** The last piece of a split is the longest separator-free suffix. */
  lemma {:induction false} LastOfSplit(s: string, sep: char)
    ensures Last(Split(s, sep)) == LastSegment(s, sep)
    decreases |s|
  {
    if |s| > 0 {
      var init := Split(s[..|s| - 1], sep);
      var x := s[|s| - 1];
      if x == sep {
        assert Split(s, sep) == init + [""];
      } else {
        LastOfSplit(s[..|s| - 1], sep);
        assert Split(s, sep) == init[..|init| - 1] + [Last(init) + [x]];
        assert LastSegment(s, sep) == LastSegment(s[..|s| - 1], sep) + [x];
      }
    }
  }

  /** A string without the separator splits into itself alone. */
  lemma {:induction false} SplitWithoutSeparator(s: string, sep: char)
    requires sep !in s
    ensures Split(s, sep) == [s]
    decreases |s|
  {
    if |s| > 0 {
      assert s[..|s| - 1] + [s[|s| - 1]] == s;
      SplitWithoutSeparator(s[..|s| - 1], sep);
    }
  }

  /** One step of `Split`: appending a character either starts a new piece
      (the separator) or extends the last piece. */
  lemma SplitSnoc(s: string, sep: char, x: char)
    ensures var init := Split(s, sep);
      Split(s + [x], sep) == if x == sep then init + [""] else init[..|init| - 1] + [Last(init) + [x]]
  {
    assert (s + [x])[..|s|] == s;
  }

  /** Extending the last piece of `ps + qs` extends the last piece of `qs`. */
  lemma ExtendLastOfAppend(ps: seq<string>, qs: seq<string>, x: char)
    requires |qs| >= 1
    ensures var pq := ps + qs;
      pq[..|pq| - 1] + [Last(pq) + [x]] == ps + (qs[..|qs| - 1] + [Last(qs) + [x]])
  {
    var pq := ps + qs;
    assert pq[..|pq| - 1] == ps + qs[..|qs| - 1];
  }

  /** Splitting at one occurrence of the separator splits each side independently. */
  lemma {:induction false} SplitAt(a: string, sep: char, b: string)
    ensures Split(a + [sep] + b, sep) == Split(a, sep) + Split(b, sep)
    decreases |b|
  {
    if |b| == 0 {
      assert a + [sep] + b == a + [sep];
      SplitSnocSeparator(a, sep);
    } else {
      var b', x := b[..|b| - 1], b[|b| - 1];
      SplitAt(a, sep, b');
      SplitAtStep(a, sep, b', x);
      assert b == b' + [x];
      assert a + [sep] + b == (a + [sep] + b') + [x];
    }
  }

  /** The inductive step of `SplitAt`: one more character after the separator. */
  lemma SplitAtStep(a: string, sep: char, b: string, x: char)
    requires Split(a + [sep] + b, sep) == Split(a, sep) + Split(b, sep)
    ensures Split((a + [sep] + b) + [x], sep) == Split(a, sep) + Split(b + [x], sep)
  {
    var s := a + [sep] + b;
    var pa, pb := Split(a, sep), Split(b, sep);
    if x == sep {
      assert Split(s + [x], sep) == (pa + pb) + [""] by { SplitSnocSeparator(s, sep); }
      assert Split(b + [x], sep) == pb + [""] by { SplitSnocSeparator(b, sep); }
      AppendAssoc(pa, pb, [""]);
    } else {
      assert Split(s + [x], sep) == (pa + pb)[..|pa + pb| - 1] + [Last(pa + pb) + [x]] by {
        SplitSnocOther(s, sep, x);
      }
      assert Split(b + [x], sep) == pb[..|pb| - 1] + [Last(pb) + [x]] by {
        SplitSnocOther(b, sep, x);
      }
      ExtendLastOfAppend(pa, pb, x);
    }
  }

  lemma AppendAssoc(ps: seq<string>, qs: seq<string>, rs: seq<string>)
    ensures (ps + qs) + rs == ps + (qs + rs)
  {
  }

  /** Appending the separator starts a new, empty piece. */
  lemma SplitSnocSeparator(s: string, sep: char)
    ensures Split(s + [sep], sep) == Split(s, sep) + [""]
  {
    assert (s + [sep])[..|s|] == s;
  }

  /** Appending any other character extends the last piece. */
  lemma SplitSnocOther(s: string, sep: char, x: char)
    requires x != sep
    ensures var init := Split(s, sep);
      Split(s + [x], sep) == init[..|init| - 1] + [Last(init) + [x]]
  {
    assert (s + [x])[..|s|] == s;
  }

  /** The upper-case ASCII letters `A`..`Z`. */
  predicate IsUpper(ch: char) {
    'A' <= ch <= 'Z'
  }

  /** The ASCII part of `toLowerCase` for one character. */
  function LowerChar(ch: char): (r: char)
    ensures !IsUpper(r)
    ensures IsUpper(ch) ==> r as int == ch as int + 32
    ensures !IsUpper(ch) ==> r == ch
  {
    if IsUpper(ch) then (ch as int + 32) as char else ch
  }

  /** `s.toLowerCase()` restricted to ASCII: each upper-case letter becomes its
      lower-case partner and every other character is kept. */
  function ToLower(s: string): (r: string)
    ensures |r| == |s|
    ensures forall i :: 0 <= i < |r| ==> !IsUpper(r[i])
    ensures forall i :: 0 <= i < |s| && !IsUpper(s[i]) ==> r[i] == s[i]
    ensures forall i :: 0 <= i < |s| && IsUpper(s[i]) ==> r[i] as int == s[i] as int + 32
  {
    seq(|s|, i requires 0 <= i < |s| => LowerChar(s[i]))
  }

  /** Lower-casing twice is lower-casing once. */
  lemma ToLowerIdempotent(s: string)
    ensures ToLower(ToLower(s)) == ToLower(s)
  {
    var r := ToLower(s);
    assert forall i :: 0 <= i < |r| ==> ToLower(r)[i] == r[i];
  }

  predicate IsDigit(ch: char) {
    '0' <= ch <= '9'
  }

  predicate AllDigits(s: string) {
    forall i :: 0 <= i < |s| ==> IsDigit(s[i])
  }

  function DigitChar(d: nat): (ch: char)
    requires d < 10
    ensures IsDigit(ch) && ch as int - '0' as int == d
  {
    ('0' as int + d) as char
  }

  /** `${n}` for a non-negative integer: its decimal digits, most significant
      first, with no leading zero. */
  function Decimal(n: nat): (s: string)
    ensures |s| >= 1 && AllDigits(s)
    ensures s[0] == '0' <==> n == 0
    ensures n == 0 ==> s == "0"
  {
    if n < 10 then [DigitChar(n)]
    else Decimal(n / 10) + [DigitChar(n % 10)]
  }

  /** The number a string of decimal digits denotes. */
  function DecimalValue(s: string): nat
    requires AllDigits(s)
  {
    if |s| == 0 then 0
    else 10 * DecimalValue(s[..|s| - 1]) + (s[|s| - 1] as int - '0' as int)
  }

  /** Reading back the decimal rendering gives the number. */
  lemma {:induction false} DecimalRoundTrip(n: nat)
    ensures DecimalValue(Decimal(n)) == n
  {
    if n >= 10 {
      DecimalRoundTrip(n / 10);
      var s := Decimal(n);
      assert s[..|s| - 1] == Decimal(n / 10);
    }
  }
}
