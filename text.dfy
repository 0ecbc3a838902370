/** The string operations the reminder mails are built from: JavaScript's
    `Array.prototype.join`, its inverse `String.prototype.split` on one
    character, and a count of the occurrences of a tag. */
module Text {

  /** `parts.join(sep)`: the parts with `sep` between neighbours; `[].join(sep)` is "". */
  function Join(parts: seq<string>, sep: string): string {
    if |parts| == 0 then ""
    else if |parts| == 1 then parts[0]
    else parts[0] + sep + Join(parts[1..], sep)
  }

  /** `s.split(c)` for a one-character separator: the maximal pieces between occurrences of `c`.
      As in JavaScript, the empty string splits into one empty piece. */
  function Split(s: string, c: char): (r: seq<string>)
    ensures |r| >= 1
    ensures forall k :: 0 <= k < |r| ==> c !in r[k]
  {
    if |s| == 0 then [""]
    else
      var rest := Split(s[1..], c);
      if s[0] == c then [""] + rest else [[s[0]] + rest[0]] + rest[1..]
  }

  lemma {:induction false} SplitWithout(a: string, c: char)
    requires c !in a
    ensures Split(a, c) == [a]
  {
    if |a| > 0 {
      SplitWithout(a[1..], c);
      assert [a[0]] + a[1..] == a;
    }
  }

  lemma {:induction false} SplitAt(a: string, c: char, b: string)
    requires c !in a
    ensures Split(a + [c] + b, c) == [a] + Split(b, c)
  {
    if |a| == 0 {
      assert a + [c] + b == [c] + b;
      assert ([c] + b)[1..] == b;
    } else {
      var s := a + [c] + b;
      assert s[0] == a[0];
      assert s[1..] == a[1..] + [c] + b;
      SplitAt(a[1..], c, b);
      assert [a[0]] + a[1..] == a;
    }
  }

  /** Splitting a joined list of pieces that do not contain the separator gives the pieces back. */
  lemma {:induction false} SplitJoin(parts: seq<string>, c: char)
    requires |parts| >= 1
    requires forall k :: 0 <= k < |parts| ==> c !in parts[k]
    ensures Split(Join(parts, [c]), c) == parts
  {
    if |parts| == 1 {
      SplitWithout(parts[0], c);
    } else {
      SplitJoin(parts[1..], c);
      SplitAt(parts[0], c, Join(parts[1..], [c]));
      assert [parts[0]] + parts[1..] == parts;
    }
  }

  /** The number of positions at which `pat` starts in `s`. */
  function Occurrences(s: string, pat: string): nat
    requires |pat| > 0
  {
    if |s| < |pat| then 0
    else (if s[..|pat|] == pat then 1 else 0) + Occurrences(s[1..], pat)
  }

  /** No non-empty tail of `a` is a beginning of `pat`, so no occurrence of `pat` straddles the end of `a`. */
  predicate NoOverlapAtEnd(a: string, pat: string) {
    forall k :: 0 < k < |pat| && k <= |a| ==> a[|a| - k..] != pat[..k]
  }

  lemma {:induction false} OccurrencesConcat(a: string, b: string, pat: string)
    requires |pat| > 0
    requires NoOverlapAtEnd(a, pat)
    ensures Occurrences(a + b, pat) == Occurrences(a, pat) + Occurrences(b, pat)
  {
    if |a| == 0 {
      assert a + b == b;
    } else {
      var s := a + b;
      assert s[1..] == a[1..] + b;
      assert NoOverlapAtEnd(a[1..], pat) by {
        forall k | 0 < k < |pat| && k <= |a[1..]|
          ensures a[1..][|a[1..]| - k..] != pat[..k]
        {
          assert a[1..][|a[1..]| - k..] == a[|a| - k..];
        }
      }
      OccurrencesConcat(a[1..], b, pat);
      if |a| >= |pat| {
        assert s[..|pat|] == a[..|pat|];
      } else if |s| >= |pat| {
        assert s[..|pat|][..|a|] == a == a[|a| - |a|..];
        assert s[..|pat|] != pat;
      }
    }
  }

  /** A string that lacks the first character of `pat` leaves no partial match at its end. */
  lemma NoOverlapWithout(a: string, pat: string)
    requires |pat| > 0 && pat[0] !in a
    ensures NoOverlapAtEnd(a, pat)
  {
    forall k | 0 < k < |pat| && k <= |a|
      ensures a[|a| - k..] != pat[..k]
    {
      assert a[|a| - k..][0] == a[|a| - k];
    }
  }

  /** Appending a string that lacks the first character of `pat` creates no partial match at the end. */
  lemma NoOverlapJoin(a: string, b: string, pat: string)
    requires |pat| > 0 && pat[0] !in b
    requires NoOverlapAtEnd(a, pat)
    ensures NoOverlapAtEnd(a + b, pat)
  {
    var s := a + b;
    forall k | 0 < k < |pat| && k <= |s|
      ensures s[|s| - k..] != pat[..k]
    {
      if k <= |b| {
        assert s[|s| - k..][0] == b[|b| - k];
      } else {
        var j := k - |b|;
        assert s[|s| - k..][..j] == a[|a| - j..];
        assert pat[..k][..j] == pat[..j];
      }
    }
  }

  lemma {:induction false} OccurrencesWithout(s: string, pat: string)
    requires |pat| > 0 && pat[0] !in s
    ensures Occurrences(s, pat) == 0
  {
    if |s| >= |pat| {
      assert s[..|pat|][0] == s[0];
      OccurrencesWithout(s[1..], pat);
    }
  }
}
