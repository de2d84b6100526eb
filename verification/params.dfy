/** The search-query parameter dictionary of `BaseAnalyst`: an
    insertion-ordered mapping from qualifier (`repo:`, `state:`, ...) to value,
    with Python `dict` assignment and `update`, and `combine_parameters`,
    which turns it into the `q=` part of a search URL. */
module Params {
  import opened Wrappers

  /** The dictionary as the sequence of its items, in insertion order. */
  type Params = seq<(string, string)>

  /** The keys in iteration order. */
  function Keys(m: Params): seq<string> {
    if |m| == 0 then [] else [m[0].0] + Keys(m[1..])
  }

  /** No key occurs twice, as in every Python dict. */
  predicate DistinctKeys(m: Params) {
    |m| == 0 || (m[0].0 !in Keys(m[1..]) && DistinctKeys(m[1..]))
  }

  /** `d.get(k)`. */
  function Lookup(m: Params, k: string): (r: Option<string>)
    ensures r.Some? <==> k in Keys(m)
  {
    if |m| == 0 then None
    else if m[0].0 == k then Some(m[0].1)
    else Lookup(m[1..], k)
  }

  /** `d[k] = v`: an existing key keeps its position and gets the new value;
      a new key is appended at the end. */
  function Set(m: Params, k: string, v: string): (r: Params)
    ensures Lookup(r, k) == Some(v)
    ensures forall k' :: k' != k ==> Lookup(r, k') == Lookup(m, k')
    ensures k in Keys(m) ==> Keys(r) == Keys(m)
    ensures k !in Keys(m) ==> Keys(r) == Keys(m) + [k]
    ensures DistinctKeys(m) ==> DistinctKeys(r)
  {
    if |m| == 0 then
      [(k, v)]
    else if m[0].0 == k then
      var r := [(k, v)] + m[1..];
      assert r[1..] == m[1..];
      r
    else
      var r := [m[0]] + Set(m[1..], k, v);
      assert r[1..] == Set(m[1..], k, v);
      r
  }

  /** `d.update(other)` for a dict `other`: assigns its items one by one, in order. */
  function Update(m: Params, other: Params): (r: Params)
    requires DistinctKeys(other)
    ensures forall k :: Lookup(r, k) == if k in Keys(other) then Lookup(other, k) else Lookup(m, k)
    ensures forall k :: k in Keys(r) <==> k in Keys(m) || k in Keys(other)
    ensures (forall k :: k in Keys(other) ==> k in Keys(m)) ==> Keys(r) == Keys(m)
    ensures DistinctKeys(m) ==> DistinctKeys(r)
    decreases |other|
  {
    if |other| == 0 then m
    else Update(Set(m, other[0].0, other[0].1), other[1..])
  }

  lemma {:induction false} KeysAppend(a: Params, b: Params)
    ensures Keys(a + b) == Keys(a) + Keys(b)
    decreases |a|
  {
    if |a| == 0 {
      assert a + b == b;
    } else {
      assert (a + b)[1..] == a[1..] + b;
      KeysAppend(a[1..], b);
    }
  }

  /** Assigning a new key appends the item. */
  lemma {:induction false} SetNewKey(m: Params, k: string, v: string)
    requires k !in Keys(m)
    ensures Set(m, k, v) == m + [(k, v)]
    decreases |m|
  {
    if |m| > 0 {
      SetNewKey(m[1..], k, v);
      assert m == [m[0]] + m[1..];
    }
  }

  /** Assigning a key other than the first item's leaves that item first. */
  lemma SetSkipsHead(h: (string, string), t: Params, k: string, v: string)
    requires h.0 != k
    ensures Set([h] + t, k, v) == [h] + Set(t, k, v)
  {
    assert ([h] + t)[1..] == t;
  }

  /** Assigning the first item's key rewrites that item. */
  lemma SetHitsHead(t: Params, k: string, previous: string, v: string)
    ensures Set([(k, previous)] + t, k, v) == [(k, v)] + t
  {
    assert ([(k, previous)] + t)[1..] == t;
  }

  /** Assigning an existing key rewrites its item in place. */
  lemma {:induction false} SetExistingKey(a: Params, k: string, previous: string, b: Params, v: string)
    requires k !in Keys(a)
    ensures Set(a + [(k, previous)] + b, k, v) == a + [(k, v)] + b
    decreases |a|
  {
    if |a| == 0 {
      assert a + [(k, previous)] + b == [(k, previous)] + b;
      SetHitsHead(b, k, previous, v);
    } else {
      assert Keys(a) == [a[0].0] + Keys(a[1..]);
      var tail := a[1..] + [(k, previous)] + b;
      calc {
        Set(a + [(k, previous)] + b, k, v);
        { assert a + [(k, previous)] + b == [a[0]] + tail; }
        Set([a[0]] + tail, k, v);
        { SetSkipsHead(a[0], tail, k, v); }
        [a[0]] + Set(tail, k, v);
        { SetExistingKey(a[1..], k, previous, b, v); }
        [a[0]] + (a[1..] + [(k, v)] + b);
        { assert a == [a[0]] + a[1..]; }
        a + [(k, v)] + b;
      }
    }
  }

  /** Updating with a single item assigns it. */
  lemma UpdateSingle(m: Params, k: string, v: string)
    ensures Update(m, [(k, v)]) == Set(m, k, v)
  {
    assert [(k, v)][1..] == [];
  }

  /** The query text `combine_parameters` builds: every item as key, value
      and a trailing `+`, in iteration order. */
  function Joined(m: Params): string {
    if |m| == 0 then "" else m[0].0 + m[0].1 + "+" + Joined(m[1..])
  }

  /** The number of characters each item contributes: key, value and the `+`. */
  function ItemsLength(m: Params): nat {
    if |m| == 0 then 0 else |m[0].0| + |m[0].1| + 1 + ItemsLength(m[1..])
  }

  /** Joining is a homomorphism from item concatenation to text concatenation. */
  lemma {:induction false} JoinedAppend(a: Params, b: Params)
    ensures Joined(a + b) == Joined(a) + Joined(b)
    decreases |a|
  {
    if |a| == 0 {
      assert a + b == b;
    } else {
      assert (a + b)[0] == a[0];
      assert (a + b)[1..] == a[1..] + b;
      JoinedAppend(a[1..], b);
    }
  }

  /** The query text is exactly as long as its items. */
  lemma {:induction false} JoinedLength(m: Params)
    ensures |Joined(m)| == ItemsLength(m)
    decreases |m|
  {
    if |m| > 0 {
      JoinedLength(m[1..]);
    }
  }

  /** A query built from at least one item ends with `+`. */
  lemma JoinedEndsWithPlus(m: Params)
    requires |m| > 0
    ensures |Joined(m)| > 0 && Joined(m)[|Joined(m)| - 1] == '+'
  {
    var init, last := m[..|m| - 1], m[|m| - 1];
    assert m == init + [last];
    JoinedAppend(init, [last]);
    assert Joined([last]) == last.0 + last.1 + "+";
  }

  /** `combine_parameters`: the loop appends `key`, `value` and `+` for each item. */
  method CombineParameters(m: Params) returns (result: string)
    ensures result == Joined(m)
    ensures |m| == 0 ==> result == ""
    ensures |m| > 0 ==> |result| > 0 && result[|result| - 1] == '+'
    ensures |result| == ItemsLength(m)
  {
    result := "";
    var i := 0;
    while i < |m|
      invariant 0 <= i <= |m|
      invariant result == Joined(m[..i])
    {
      var key, value := m[i].0, m[i].1;
      JoinedAppend(m[..i], [m[i]]);
      assert m[..i + 1] == m[..i] + [m[i]];
      result := result + key + value + "+";
      i := i + 1;
    }
    assert m[..i] == m;
    JoinedLength(m);
    if |m| > 0 {
      JoinedEndsWithPlus(m);
    }
  }
}
