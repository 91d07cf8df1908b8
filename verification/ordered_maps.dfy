/**
  PHP ordered arrays. An array is a sequence of key/value entries in
  insertion order; reading a key finds its first entry, assigning to a key
  that is present overwrites the value in place, assigning to a new key
  appends, and `unset` drops the key's entries without disturbing the rest.
 */
module OrderedMaps {
  import opened Wrappers

  type OrderedMap<V> = seq<(string, V)>

  /** The keys of `m`, in order. */
  function Keys<V>(m: OrderedMap<V>): (ks: seq<string>)
    ensures |ks| == |m|
    ensures forall i :: 0 <= i < |m| ==> ks[i] == m[i].0
  {
    seq(|m|, i requires 0 <= i < |m| => m[i].0)
  }

  /** The keys of all but the last entry, then the last entry's key. */
  lemma KeysSnoc<V>(m: OrderedMap<V>)
    requires |m| > 0
    ensures Keys(m) == Keys(m[..|m| - 1]) + [m[|m| - 1].0]
  {
  }

  /** No key occurs twice, as in every PHP array. */
  predicate Distinct(ks: seq<string>) {
    forall i, j :: 0 <= i < j < |ks| ==> ks[i] != ks[j]
  }

  /** Position of the first occurrence of `k`. */
  function IndexOf(ks: seq<string>, k: string): (i: nat)
    requires k in ks
    ensures i < |ks| && ks[i] == k
    ensures k !in ks[..i]
  {
    if ks[0] == k then 0
    else
      var j := IndexOf(ks[1..], k);
      assert ks[..j + 1] == [ks[0]] + ks[1..][..j];
      j + 1
  }

  /** `isset($m[$k])`, then `$m[$k]`: the value of the first entry under `k`. */
  function Get<V>(m: OrderedMap<V>, k: string): (r: Option<V>)
    ensures r.Some? <==> k in Keys(m)
    decreases |m|
  {
    if |m| == 0 then None
    else
      assert Keys(m) == [m[0].0] + Keys(m[1..]);
      if m[0].0 == k then Some(m[0].1) else Get(m[1..], k)
  }

  /** `$m[$k] ?? $default`. */
  function GetOr<V>(m: OrderedMap<V>, k: string, default: V): V {
    Get(m, k).GetOr(default)
  }

  /** Any position holding the first occurrence of `k` is `IndexOf`'s answer. */
  lemma IndexOfUnique(ks: seq<string>, k: string, i: nat)
    requires i < |ks| && ks[i] == k && k !in ks[..i]
    ensures IndexOf(ks, k) == i
  {
    var j := IndexOf(ks, k);
    assert forall t :: 0 <= t < i ==> ks[..i][t] == ks[t];
    assert forall t :: 0 <= t < j ==> ks[..j][t] == ks[t];
  }

  /** Appending after a key does not move its first occurrence. */
  lemma IndexOfPrefix(s: seq<string>, t: seq<string>, k: string)
    requires k in s
    ensures IndexOf(s + t, k) == IndexOf(s, k)
  {
    var i := IndexOf(s, k);
    assert (s + t)[..i] == s[..i];
    IndexOfUnique(s + t, k, i);
  }

  /** A present key reads the entry at its first position. */
  lemma {:induction false} GetAt<V>(m: OrderedMap<V>, k: string)
    requires k in Keys(m)
    ensures Get(m, k) == Some(m[IndexOf(Keys(m), k)].1)
    decreases |m|
  {
    var km := Keys(m);
    assert km == [m[0].0] + Keys(m[1..]);
    if m[0].0 != k {
      GetAt(m[1..], k);
      var j := IndexOf(Keys(m[1..]), k);
      assert km[j + 1] == k;
      assert km[..j + 1] == [m[0].0] + Keys(m[1..])[..j];
      IndexOfUnique(km, k, j + 1);
    }
  }

  /** The keys after assigning to `k`: unchanged when present, `k` appended otherwise. */
  function AssignKey(ks: seq<string>, k: string): seq<string> {
    if k in ks then ks else ks + [k]
  }

  /** `$m[$k] = $v`: overwrite in place when `k` is present, append otherwise. */
  function Upsert<V>(m: OrderedMap<V>, k: string, v: V): (r: OrderedMap<V>)
    ensures Get(r, k) == Some(v)
    ensures forall k' :: k' != k ==> Get(r, k') == Get(m, k')
    ensures Keys(r) == AssignKey(Keys(m), k)
  {
    if k in Keys(m) then
      var i := IndexOf(Keys(m), k);
      var r := m[i := (k, v)];
      assert Keys(r) == Keys(m);
      GetAt(r, k);
      forall k' | k' != k && k' in Keys(m)
        ensures Get(r, k') == Get(m, k')
      {
        GetAt(r, k');
        GetAt(m, k');
      }
      r
    else
      var r := m + [(k, v)];
      assert Keys(r) == Keys(m) + [k];
      assert Keys(r)[..|m|] == Keys(m);
      IndexOfUnique(Keys(r), k, |m|);
      GetAt(r, k);
      forall k' | k' in Keys(m)
        ensures Get(r, k') == Get(m, k')
      {
        IndexOfPrefix(Keys(m), [k], k');
        GetAt(r, k');
        GetAt(m, k');
      }
      r
  }

  /**
    The keys of an array whose keys were `base` after assigning to each of
    `ks` in turn: a key already present stays where it is, a new one is
    appended.
   */
  function KeysAfter(base: seq<string>, ks: seq<string>): (r: seq<string>)
    ensures |r| >= |base| && r[..|base|] == base
    ensures forall k :: k in r <==> k in base || k in ks
    ensures Distinct(base) ==> Distinct(r)
    decreases |ks|
  {
    if |ks| == 0 then base
    else
      var n := |ks| - 1;
      var acc := KeysAfter(base, ks[..n]);
      assert ks == ks[..n] + [ks[n]];
      assert (acc + [ks[n]])[..|base|] == acc[..|base|];
      AssignKey(acc, ks[n])
  }

  /** Assign every entry of `ps` into `m`, left to right. */
  function InsertAll<V>(m: OrderedMap<V>, ps: OrderedMap<V>): (r: OrderedMap<V>)
    ensures Keys(r) == KeysAfter(Keys(m), Keys(ps))
    ensures forall k :: k !in Keys(ps) ==> Get(r, k) == Get(m, k)
    decreases |ps|
  {
    if |ps| == 0 then m
    else
      var n := |ps| - 1;
      var acc := InsertAll(m, ps[..n]);
      KeysSnoc(ps);
      assert KeysAfter(Keys(m), Keys(ps)) == AssignKey(Keys(acc), ps[n].0);
      Upsert(acc, ps[n].0, ps[n].1)
  }

  /** The value of the last entry of `ps` under `k`, searching from the end. */
  function LastValue<V>(ps: OrderedMap<V>, k: string): (r: Option<V>)
    ensures r.Some? <==> k in Keys(ps)
    decreases |ps|
  {
    if |ps| == 0 then None
    else
      var n := |ps| - 1;
      KeysSnoc(ps);
      if ps[n].0 == k then Some(ps[n].1) else LastValue(ps[..n], k)
  }

  /** An entry that no later entry shares its key with is the one `LastValue` finds. */
  lemma {:induction false} LastValueAt<V>(ps: OrderedMap<V>, i: nat)
    requires i < |ps|
    requires forall j :: i < j < |ps| ==> ps[j].0 != ps[i].0
    ensures LastValue(ps, ps[i].0) == Some(ps[i].1)
    decreases |ps|
  {
    var n := |ps| - 1;
    if i < n {
      var front := ps[..n];
      assert ps[n].0 != ps[i].0;
      assert front[i] == ps[i];
      forall j | i < j < |front|
        ensures front[j].0 != front[i].0
      {
        assert front[j] == ps[j];
      }
      LastValueAt(front, i);
    }
  }

  /** Reading after repeated assignment: the last assigned value, else the original. */
  lemma {:induction false} InsertAllGet<V>(m: OrderedMap<V>, ps: OrderedMap<V>, k: string)
    ensures Get(InsertAll(m, ps), k) == if k in Keys(ps) then LastValue(ps, k) else Get(m, k)
    decreases |ps|
  {
    if |ps| > 0 {
      var n := |ps| - 1;
      var front := ps[..n];
      var acc := InsertAll(m, front);
      assert InsertAll(m, ps) == Upsert(acc, ps[n].0, ps[n].1);
      KeysSnoc(ps);
      if ps[n].0 == k {
        assert LastValue(ps, k) == Some(ps[n].1);
      } else {
        InsertAllGet(m, front, k);
        assert Get(InsertAll(m, ps), k) == Get(acc, k);
        assert LastValue(ps, k) == LastValue(front, k);
      }
    }
  }

  /**
    Last write wins: an entry of `ps` that no later entry overwrites is what
    its key holds afterwards.
   */
  lemma InsertAllLastWins<V>(m: OrderedMap<V>, ps: OrderedMap<V>, i: nat)
    requires i < |ps|
    requires forall j :: i < j < |ps| ==> ps[j].0 != ps[i].0
    ensures Get(InsertAll(m, ps), ps[i].0) == Some(ps[i].1)
  {
    assert Keys(ps)[i] == ps[i].0;
    InsertAllGet(m, ps, ps[i].0);
    LastValueAt(ps, i);
  }

  /** Assigning a key does not move a key already present. */
  lemma AssignKeyKeeps(acc: seq<string>, x: string, a: string)
    requires a in acc
    ensures a in AssignKey(acc, x) && IndexOf(AssignKey(acc, x), a) == IndexOf(acc, a)
  {
    IndexOfPrefix(acc, [x], a);
  }

  /** A new key lands at the end. */
  lemma AssignKeyNew(acc: seq<string>, x: string)
    requires x !in acc
    ensures x in AssignKey(acc, x) && IndexOf(AssignKey(acc, x), x) == |acc|
  {
    var r := acc + [x];
    assert r[..|acc|] == acc;
    IndexOfUnique(r, x, |acc|);
  }

  /**
    Keys new to `base` are laid out in the order of their first assignment
    in `ks`; a later overwrite does not move an entry.
   */
  lemma {:induction false} KeysAfterFirstPosition(base: seq<string>, ks: seq<string>, a: string, b: string)
    requires a in ks && b in ks
    requires a !in base && b !in base
    requires IndexOf(ks, a) < IndexOf(ks, b)
    ensures IndexOf(KeysAfter(base, ks), a) < IndexOf(KeysAfter(base, ks), b)
    decreases |ks|
  {
    var n := |ks| - 1;
    var x := ks[n];
    var front := ks[..n];
    var acc := KeysAfter(base, front);
    assert ks == front + [x];
    assert KeysAfter(base, ks) == AssignKey(acc, x);
    assert front[IndexOf(ks, a)] == a;
    IndexOfPrefix(front, [x], a);
    AssignKeyKeeps(acc, x, a);
    if b in front {
      IndexOfPrefix(front, [x], b);
      KeysAfterFirstPosition(base, front, a, b);
      AssignKeyKeeps(acc, x, b);
    } else {
      assert b == x;
      AssignKeyNew(acc, x);
    }
  }

  /** `unset($m[$k])`. */
  function Remove<V>(m: OrderedMap<V>, k: string): (r: OrderedMap<V>)
    ensures k !in Keys(r)
    ensures forall k' :: k' in Keys(r) <==> k' in Keys(m) && k' != k
    ensures k !in Keys(m) ==> r == m
    decreases |m|
  {
    if |m| == 0 then []
    else
      var rest := Remove(m[1..], k);
      assert Keys(m) == [m[0].0] + Keys(m[1..]);
      if m[0].0 == k then rest
      else
        assert Keys([m[0]] + rest) == [m[0].0] + Keys(rest);
        [m[0]] + rest
  }

  /**
    On a PHP array (distinct keys), `unset` removes exactly the entry at the
    key's position and keeps every other entry in order.
   */
  lemma {:induction false} RemoveDistinct<V>(m: OrderedMap<V>, k: string)
    requires Distinct(Keys(m)) && k in Keys(m)
    ensures Remove(m, k) == m[..IndexOf(Keys(m), k)] + m[IndexOf(Keys(m), k) + 1..]
    decreases |m|
  {
    var tail := m[1..];
    var km := Keys(m);
    var kt := Keys(tail);
    assert km == [m[0].0] + kt;
    if m[0].0 == k {
      assert k !in kt by {
        forall t | 0 <= t < |kt|
          ensures kt[t] != k
        {
          assert km[t + 1] == kt[t];
        }
      }
      assert Remove(m, k) == tail;
    } else {
      assert Distinct(kt) by {
        forall i, j | 0 <= i < j < |kt|
          ensures kt[i] != kt[j]
        {
          assert km[i + 1] == kt[i] && km[j + 1] == kt[j];
        }
      }
      assert k in kt;
      RemoveDistinct(tail, k);
      var j := IndexOf(kt, k);
      assert km[1..] == kt;
      assert IndexOf(km, k) == j + 1;
      assert Remove(m, k) == [m[0]] + Remove(tail, k);
      DropAfterHead(m, j);
    }
  }

  /** Dropping position `j + 1` of `s` is dropping position `j` of its tail. */
  lemma DropAfterHead<T>(s: seq<T>, j: nat)
    requires j + 1 < |s|
    ensures s[..j + 1] + s[j + 2..] == [s[0]] + (s[1..][..j] + s[1..][j + 1..])
  {
    assert s[..j + 1] == [s[0]] + s[1..][..j];
  }
}
