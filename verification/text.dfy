/** Plain string helpers used to read back the strings the analysts build. */
module Text {
  import opened Wrappers

  /** Splits `s` at the first occurrence of `sep`, giving the text before and after it. */
  function SplitOnce(s: string, sep: string): (r: Option<(string, string)>)
    requires |sep| > 0
    ensures r.Some? ==> s == r.value.0 + sep + r.value.1
    decreases |s|
  {
    if |s| < |sep| then None
    else if s[..|sep|] == sep then
      assert s == s[..|sep|] + s[|sep|..];
      Some(([], s[|sep|..]))
    else
      match SplitOnce(s[1..], sep)
      case None => None
      case Some(parts) =>
        ConsJoin(s, sep, parts.0, parts.1);
        Some(([s[0]] + parts.0, parts.1))
  }

  /** Putting back the first character of a split tail. */
  lemma ConsJoin(s: string, sep: string, x: string, y: string)
    requires |s| > 0 && s[1..] == x + sep + y
    ensures s == ([s[0]] + x) + sep + y
  {
    assert s == [s[0]] + s[1..];
  }

  /** Joining two texts around a separator whose first character does not occur
      in the left text is undone by `SplitOnce`. */
  lemma {:induction false} SplitOnceJoin(x: string, sep: string, y: string)
    requires |sep| > 0 && sep[0] !in x
    ensures SplitOnce(x + sep + y, sep) == Some((x, y))
    decreases |x|
  {
    var s := x + sep + y;
    if |x| == 0 {
      assert s == sep + y;
      assert s[..|sep|] == sep;
      assert s[|sep|..] == y;
    } else {
      assert s[0] == x[0];
      assert s[..|sep|][0] == x[0];
      assert s[..|sep|] != sep;
      assert s[1..] == x[1..] + sep + y;
      SplitOnceJoin(x[1..], sep, y);
      assert [s[0]] + x[1..] == x;
    }
  }

  /** A text without the separator's first character has nothing to split at. */
  lemma {:induction false} SplitOnceAbsent(s: string, sep: string)
    requires |sep| > 0 && sep[0] !in s
    ensures SplitOnce(s, sep).None?
    decreases |s|
  {
    if |s| >= |sep| {
      assert s[..|sep|][0] == s[0];
      SplitOnceAbsent(s[1..], sep);
    }
  }

  /** `s` begins with `p`. */
  predicate StartsWith(s: string, p: string) {
    |p| <= |s| && s[..|p|] == p
  }

  /** `sep` occurs nowhere in `s`. */
  predicate Lacks(s: string, sep: string) {
    forall i :: 0 <= i < |s| ==> !StartsWith(s[i..], sep)
  }

  /** A text in which the separator occurs nowhere has nothing to split at. */
  lemma {:induction false} SplitOnceLacking(s: string, sep: string)
    requires |sep| > 0 && Lacks(s, sep)
    ensures SplitOnce(s, sep).None?
    decreases |s|
  {
    if |s| >= |sep| {
      assert s[0..] == s;
      assert !StartsWith(s[0..], sep);
      forall i | 0 <= i < |s[1..]| ensures !StartsWith(s[1..][i..], sep) {
        assert s[1..][i..] == s[i + 1..];
      }
      SplitOnceLacking(s[1..], sep);
    }
  }

  /** Joining two texts around a separator is undone by `SplitOnce` exactly
      when the separator does not begin anywhere inside the left text, not
      even overlapping into the separator itself. */
  lemma {:induction false} SplitOnceJoinFirst(x: string, sep: string, y: string)
    requires |sep| > 0
    requires forall i :: 0 <= i < |x| ==> !StartsWith((x + sep)[i..], sep)
    ensures SplitOnce(x + sep + y, sep) == Some((x, y))
    decreases |x|
  {
    var s := x + sep + y;
    if |x| == 0 {
      assert s == sep + y;
      assert s[..|sep|] == sep;
      assert s[|sep|..] == y;
    } else {
      assert (x + sep)[0..] == x + sep;
      assert s[..|sep|] == (x + sep)[..|sep|];
      assert s[..|sep|] != sep;
      assert s[1..] == x[1..] + sep + y;
      forall i | 0 <= i < |x[1..]| ensures !StartsWith((x[1..] + sep)[i..], sep) {
        assert (x[1..] + sep)[i..] == (x + sep)[i + 1..];
      }
      SplitOnceJoinFirst(x[1..], sep, y);
      assert [s[0]] + x[1..] == x;
    }
  }
}
