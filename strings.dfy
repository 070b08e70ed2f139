/** The .NET string operations the SQL generator relies on, as functions
    over `seq<char>`, with the facts about them that the rest of the model
    uses: joining and splitting are inverse, `Replace` passes over text that
    cannot start the pattern, and the substring search means what it says. */
module Strings {

  /** `string.Join(sep, xs)`: the items with `sep` between neighbours and
      nothing before the first or after the last. */
  function Join(sep: string, xs: seq<string>): string
  {
    if |xs| == 0 then ""
    else if |xs| == 1 then xs[0]
    else xs[0] + sep + Join(sep, xs[1..])
  }

  /** Appending one more item to a joined list adds exactly one separator. */
  lemma {:induction false} JoinSnoc(sep: string, xs: seq<string>, y: string)
    ensures Join(sep, xs + [y]) == if |xs| == 0 then y else Join(sep, xs) + sep + y
  {
    if |xs| > 1 {
      assert (xs + [y])[1..] == xs[1..] + [y];
      JoinSnoc(sep, xs[1..], y);
    } else if |xs| == 1 {
      assert (xs + [y])[1..] == [y];
    }
  }

  /** A joined list with at least one item ends with its last item: no
      trailing separator is ever produced. */
  lemma JoinEndsWithLast(sep: string, xs: seq<string>)
    requires |xs| > 0
    ensures EndsWith(Join(sep, xs), xs[|xs| - 1])
  {
    var n := |xs| - 1;
    assert xs == xs[..n] + [xs[n]];
    JoinSnoc(sep, xs[..n], xs[n]);
  }

  /** What a builder loop that writes item, separator, item, ... has
      produced after `i` of the items: the first `i` joined, followed by the
      separator that is written after every item but the last. */
  function JoinedSoFar(sep: string, xs: seq<string>, i: nat): string
    requires i <= |xs|
  {
    Join(sep, xs[..i]) + (if 0 < i < |xs| then sep else "")
  }

  /** One more round of the loop appends the next item and, unless it is the
      last, a separator. */
  lemma JoinedSoFarStep(sep: string, xs: seq<string>, i: nat)
    requires i < |xs|
    ensures JoinedSoFar(sep, xs, i + 1) == JoinedSoFar(sep, xs, i) + xs[i] + (if i < |xs| - 1 then sep else "")
  {
    assert xs[..i + 1] == xs[..i] + [xs[i]];
    JoinSnoc(sep, xs[..i], xs[i]);
  }

  /** The same round seen from a builder that started from `start`: the text
      `before` it holds when round `i` begins, extended by the item and the
      separator, is the text after round `i`. */
  lemma JoinedSoFarNext(start: string, sep: string, xs: seq<string>, i: nat, before: string, after: string)
    requires i < |xs| && before == start + JoinedSoFar(sep, xs, i)
    requires after == before + xs[i] + (if i < |xs| - 1 then sep else "")
    ensures after == start + JoinedSoFar(sep, xs, i + 1)
  {
    JoinedSoFarStep(sep, xs, i);
  }

  /** Appending in two steps is appending the two pieces joined. */
  lemma AppendAssoc(a: string, b: string, c: string)
    ensures (a + b) + c == a + (b + c)
  {
  }

  /** When the loop ends, the text is the whole join: no trailing separator. */
  lemma JoinedSoFarAll(sep: string, xs: seq<string>)
    ensures JoinedSoFar(sep, xs, |xs|) == Join(sep, xs)
  {
    assert xs[..|xs|] == xs;
  }

  /** `s.Split(c)`: the maximal runs of `s` between occurrences of `c`,
      empty runs included, so there is always at least one part. */
  function Split(s: string, c: char): (parts: seq<string>)
    ensures |parts| >= 1
    ensures forall i :: 0 <= i < |parts| ==> c !in parts[i]
  {
    if |s| == 0 then [""]
    else
      var rest := Split(s[1..], c);
      if s[0] == c then [""] + rest
      else [[s[0]] + rest[0]] + rest[1..]
  }

  /** Joining the parts of a split with the split character restores the text. */
  lemma {:induction false} JoinSplit(s: string, c: char)
    ensures Join([c], Split(s, c)) == s
  {
    if |s| > 0 {
      var rest := Split(s[1..], c);
      JoinSplit(s[1..], c);
      if s[0] == c {
        assert ([""] + rest)[1..] == rest;
      } else if |rest| > 1 {
        var parts := [[s[0]] + rest[0]] + rest[1..];
        assert parts[1..] == rest[1..];
        assert s == [s[0]] + s[1..];
      } else {
        assert s == [s[0]] + s[1..];
      }
    }
  }

  lemma {:induction false} SplitPrefix(a: string, t: string, c: char)
    requires c !in a
    ensures Split(a + t, c) == [a + Split(t, c)[0]] + Split(t, c)[1..]
  {
    if |a| > 0 {
      var parts := Split(t, c);
      assert (a + t)[0] == a[0] && (a + t)[1..] == a[1..] + t;
      SplitPrefix(a[1..], t, c);
      var rest := Split(a[1..] + t, c);
      assert rest == [a[1..] + parts[0]] + parts[1..];
      assert Split(a + t, c) == [[a[0]] + rest[0]] + rest[1..];
      assert [a[0]] + (a[1..] + parts[0]) == a + parts[0];
    } else {
      var parts := Split(t, c);
      assert a + t == t && a + parts[0] == parts[0];
      assert parts == [parts[0]] + parts[1..];
    }
  }

  /** Splitting a join of separator-free items gives the items back. */
  lemma {:induction false} SplitJoin(xs: seq<string>, c: char)
    requires |xs| >= 1
    requires forall i :: 0 <= i < |xs| ==> c !in xs[i]
    ensures Split(Join([c], xs), c) == xs
  {
    if |xs| == 1 {
      SplitPrefix(xs[0], "", c);
      assert Split("", c) == [""];
      assert xs[0] + "" == xs[0];
      assert xs == [xs[0]];
    } else {
      var tail := Join([c], xs[1..]);
      SplitJoin(xs[1..], c);
      assert Join([c], xs) == xs[0] + ([c] + tail);
      SplitPrefix(xs[0], [c] + tail, c);
      assert ([c] + tail)[0] == c && ([c] + tail)[1..] == tail;
      assert Split([c] + tail, c) == [""] + Split(tail, c);
      assert xs[0] + "" == xs[0];
      assert xs == [xs[0]] + xs[1..];
    }
  }

  predicate StartsWith(s: string, prefix: string)
  {
    |prefix| <= |s| && s[..|prefix|] == prefix
  }

  predicate EndsWith(s: string, suffix: string)
  {
    |suffix| <= |s| && s[|s| - |suffix|..] == suffix
  }

  /** A text ending with a non-empty suffix ends with the suffix's last character. */
  lemma EndsWithLastChar(s: string, x: string)
    requires |x| > 0 && EndsWith(s, x)
    ensures |s| > 0 && s[|s| - 1] == x[|x| - 1]
  {
    assert s[|s| - |x|..][|x| - 1] == s[|s| - 1];
  }

  /** A text whose last character is not a space does not end in ", ". */
  lemma NoSeparatorAtEnd(s: string)
    requires |s| > 0 && s[|s| - 1] != ' '
    ensures !EndsWith(s, ", ")
  {
    if EndsWith(s, ", ") {
      EndsWithLastChar(s, ", ");
    }
  }

  lemma StartsWithAppend(a: string, b: string)
    ensures StartsWith(a + b, a)
  {
    assert (a + b)[..|a|] == a;
  }

  lemma EndsWithAppend(a: string, b: string)
    ensures EndsWith(a + b, b)
  {
    assert (a + b)[|a + b| - |b|..] == b;
  }

  /** `sub` occurs in `s` starting at position `i`. */
  predicate OccursAt(s: string, sub: string, i: int)
  {
    0 <= i && i + |sub| <= |s| && s[i..i + |sub|] == sub
  }

  /** `s.Contains(sub)`, searched from the left. */
  predicate Contains(s: string, sub: string)
    decreases |s|
  {
    if |s| < |sub| then false
    else if s[..|sub|] == sub then true
    else Contains(s[1..], sub)
  }

  /** The search finds `sub` exactly when it occurs at some position. */
  lemma {:induction false} ContainsIff(s: string, sub: string)
    ensures Contains(s, sub) <==> exists i :: OccursAt(s, sub, i)
    decreases |s|
  {
    if |s| < |sub| {
    } else if s[..|sub|] == sub {
      assert OccursAt(s, sub, 0);
    } else {
      ContainsIff(s[1..], sub);
      if exists i :: OccursAt(s, sub, i) {
        var i :| OccursAt(s, sub, i);
        assert i != 0;
        assert s[1..][i - 1..i - 1 + |sub|] == s[i..i + |sub|];
        assert OccursAt(s[1..], sub, i - 1);
      }
      if Contains(s[1..], sub) {
        var j :| OccursAt(s[1..], sub, j);
        assert s[1..][j..j + |sub|] == s[j + 1..j + 1 + |sub|];
        assert OccursAt(s, sub, j + 1);
      }
    }
  }

  /** Invariant culture lower-casing, restricted to ASCII letters. */
  function LowerChar(ch: char): char
  {
    if 'A' <= ch <= 'Z' then (ch as int - 'A' as int + 'a' as int) as char else ch
  }

  /** `s.ToLower()`: each upper-case letter becomes the letter 32 code
      points above it, every other character is kept, and no upper-case
      letter is left. */
  function ToLower(s: string): (r: string)
    ensures |r| == |s|
    ensures forall i :: 0 <= i < |s| ==> r[i] == LowerChar(s[i])
    ensures forall i :: 0 <= i < |s| && 'A' <= s[i] <= 'Z' ==> r[i] as int == s[i] as int + 32
    ensures forall i :: 0 <= i < |s| && !('A' <= s[i] <= 'Z') ==> r[i] == s[i]
    ensures forall i :: 0 <= i < |r| ==> !('A' <= r[i] <= 'Z')
  {
    seq(|s|, i requires 0 <= i < |s| => LowerChar(s[i]))
  }

  /** `String.IsNullOrEmpty`; a null string is modelled as the empty one. */
  predicate IsNullOrEmpty(s: string)
  {
    |s| == 0
  }

  /** `s.Replace(pat, rep)`: every occurrence of `pat`, scanning from the
      left without overlap, becomes `rep`; inserted text is not rescanned. */
  function Replace(s: string, pat: string, rep: string): string
    requires |pat| > 0
    decreases |s|
  {
    if |s| < |pat| then s
    else if s[..|pat|] == pat then rep + Replace(s[|pat|..], pat, rep)
    else [s[0]] + Replace(s[1..], pat, rep)
  }

  /** A pattern found at the front is replaced and the scan resumes after it. */
  lemma ReplaceAtFront(pat: string, t: string, rep: string)
    requires |pat| > 0
    ensures Replace(pat + t, pat, rep) == rep + Replace(t, pat, rep)
  {
    assert (pat + t)[..|pat|] == pat;
    assert (pat + t)[|pat|..] == t;
  }

  /** Text that does not contain the first character of the pattern is
      copied unchanged and the scan continues after it. */
  lemma {:induction false} ReplaceSkipsPrefix(a: string, t: string, pat: string, rep: string)
    requires |pat| > 0 && pat[0] !in a
    ensures Replace(a + t, pat, rep) == a + Replace(t, pat, rep)
    decreases |a|
  {
    if |a| == 0 {
      assert a + t == t;
    } else if |a + t| < |pat| {
      assert Replace(t, pat, rep) == t;
    } else {
      assert (a + t)[0] == a[0] && a[0] != pat[0];
      assert (a + t)[..|pat|] != pat;
      assert (a + t)[1..] == a[1..] + t;
      ReplaceSkipsPrefix(a[1..], t, pat, rep);
      assert a == [a[0]] + a[1..];
    }
  }

  /** Text that starts like the pattern but differs from it in its second
      character, and holds the pattern's first character nowhere else, is
      copied unchanged and the scan continues after it. */
  lemma ReplaceSkipsMismatch(m: string, t: string, pat: string, rep: string)
    requires |pat| >= 2 && |m| >= 2 && m[1] != pat[1] && pat[0] !in m[1..]
    ensures Replace(m + t, pat, rep) == m + Replace(t, pat, rep)
  {
    var s := m + t;
    if |s| < |pat| {
      assert Replace(t, pat, rep) == t;
    } else {
      assert s[1] == m[1];
      assert s[..|pat|] != pat;
      assert s[1..] == m[1..] + t;
      ReplaceSkipsPrefix(m[1..], t, pat, rep);
      assert m == [m[0]] + m[1..];
    }
  }

  function DigitChar(d: int): char
    requires 0 <= d < 10
  {
    "0123456789"[d]
  }

  /** Decimal digits of a natural number, most significant first. */
  function NatToString(n: nat): (r: string)
    ensures |r| >= 1
    ensures forall i :: 0 <= i < |r| ==> '0' <= r[i] <= '9'
    decreases n
  {
    if n < 10 then [DigitChar(n)] else NatToString(n / 10) + [DigitChar(n % 10)]
  }

  /** `Int32.ToString()`: the digits, with a leading '-' when negative. */
  function IntToString(n: int): (r: string)
    ensures |r| >= 1
    ensures forall i :: 0 <= i < |r| ==> r[i] == '-' || '0' <= r[i] <= '9'
    ensures r[0] == '-' <==> n < 0
    ensures IntegerValue(r) == n
  {
    NatToStringValue(if n < 0 then -n else n);
    if n < 0 then "-" + NatToString(-n) else NatToString(n)
  }

  /** The number a run of decimal digits denotes, most significant first. */
  function DigitsValue(s: string): int
  {
    if |s| == 0 then 0 else DigitsValue(s[..|s| - 1]) * 10 + (s[|s| - 1] as int - '0' as int)
  }

  /** The number a decimal text with an optional leading '-' denotes. */
  function IntegerValue(s: string): int
  {
    if |s| > 0 && s[0] == '-' then -DigitsValue(s[1..]) else DigitsValue(s)
  }

  /** The digits `NatToString` writes denote the number, and carry no
      leading zero. */
  lemma {:induction false} NatToStringValue(n: nat)
    ensures DigitsValue(NatToString(n)) == n
    ensures NatToString(n)[0] != '-'
    ensures |NatToString(n)| > 1 ==> NatToString(n)[0] != '0'
    decreases n
  {
    var r := NatToString(n);
    if n >= 10 {
      NatToStringValue(n / 10);
      assert r[..|r| - 1] == NatToString(n / 10);
      assert r[0] == NatToString(n / 10)[0];
    }
  }

  /** Two numbers are written alike only when they are equal. */
  lemma IntToStringInjective(m: int, n: int)
    ensures IntToString(m) == IntToString(n) <==> m == n
  {
  }
}
