/**
 * Python dictionaries of counts (`d[k] = d.get(k, 0) + 1`), which keep their
 * keys in insertion order. A tally is a list of (key, count) pairs.
 */
module Tallies {

  type Tally = seq<(string, nat)>

  /** No key occurs twice, as in a dict. */
  ghost predicate DistinctKeys(t: Tally) {
    forall i, j :: 0 <= i < j < |t| ==> t[i].0 != t[j].0
  }

  /** The sort and `max` key `lambda x: x[1]` over `d.items()`. */
  function EntryCount(e: (string, nat)): int {
    e.1
  }

  /** `d.get(k, 0)`. */
  function CountOf(t: Tally, k: string): (c: nat)
    ensures c > 0 ==> k in Keys(t)
    ensures c <= Total(t)
  {
    if t == [] then 0
    else if t[0].0 == k then t[0].1
    else CountOf(t[1..], k)
  }

  /** `d[k] = d.get(k, 0) + 1`: an existing key is updated in place, a new key goes last. */
  function Bump(t: Tally, k: string): (r: Tally)
    ensures |t| <= |r| <= |t| + 1
    ensures |r| == |t| <==> exists i :: 0 <= i < |t| && t[i].0 == k
  {
    if t == [] then [(k, 1)]
    else if t[0].0 == k then [(k, t[0].1 + 1)] + t[1..]
    else [t[0]] + Bump(t[1..], k)
  }

  /** `sum(d.values())`. */
  function Total(t: Tally): nat {
    if t == [] then 0 else t[0].1 + Total(t[1..])
  }

  function Keys(t: Tally): set<string> {
    set i | 0 <= i < |t| :: t[i].0
  }

  /** With distinct keys, the count stored at a position is the key's count. */
  lemma {:induction false} CountOfAt(t: Tally, i: nat)
    requires DistinctKeys(t) && i < |t|
    ensures CountOf(t, t[i].0) == t[i].1
  {
    if i > 0 {
      assert t[1..][i - 1] == t[i];
      CountOfAt(t[1..], i - 1);
    }
  }

  /** A key that is not stored has count zero. */
  lemma {:induction false} CountOfMissing(t: Tally, k: string)
    requires k !in Keys(t)
    ensures CountOf(t, k) == 0
  {
    if t != [] {
      assert t[0].0 in Keys(t);
      assert Keys(t[1..]) <= Keys(t) by {
        forall x | x in Keys(t[1..]) ensures x in Keys(t) {
          var i :| 0 <= i < |t[1..]| && t[1..][i].0 == x;
          assert t[i + 1].0 == x;
        }
      }
      CountOfMissing(t[1..], k);
    }
  }

  lemma KeysCons(p: (string, nat), t: Tally)
    ensures Keys([p] + t) == {p.0} + Keys(t)
  {
    var c := [p] + t;
    assert c[0].0 == p.0;
    forall x | x in Keys(c) ensures x in {p.0} + Keys(t) {
      var i :| 0 <= i < |c| && c[i].0 == x;
      if i > 0 { assert t[i - 1].0 == x; }
    }
    forall x | x in Keys(t) ensures x in Keys(c) {
      var i :| 0 <= i < |t| && t[i].0 == x;
      assert c[i + 1].0 == x;
    }
  }

  /** Distinct keys: the head key does not occur in the tail. */
  lemma HeadNotInTail(t: Tally)
    requires DistinctKeys(t) && t != []
    ensures t[0].0 !in Keys(t[1..]) && DistinctKeys(t[1..])
  {
  }

  /** Incrementing a key adds it to the keys and keeps the keys distinct. */
  lemma {:induction false} BumpKeys(t: Tally, k: string)
    requires DistinctKeys(t)
    ensures DistinctKeys(Bump(t, k))
    ensures Keys(Bump(t, k)) == Keys(t) + {k}
  {
    var b := Bump(t, k);
    if t == [] {
      KeysCons((k, 1), []);
    } else {
      HeadNotInTail(t);
      var rest := t[1..];
      assert t == [t[0]] + rest;
      KeysCons(t[0], rest);
      if t[0].0 == k {
        KeysCons((k, t[0].1 + 1), rest);
        forall i, j | 0 <= i < j < |b| ensures b[i].0 != b[j].0 {
          assert b[j] == t[j];
          if i > 0 { assert b[i] == t[i]; }
        }
      } else {
        BumpKeys(rest, k);
        var br := Bump(rest, k);
        KeysCons(t[0], br);
        forall i, j | 0 <= i < j < |b| ensures b[i].0 != b[j].0 {
          if i == 0 {
            assert b[j] == br[j - 1];
            assert b[j].0 in Keys(br);
          } else {
            assert b[i] == br[i - 1] && b[j] == br[j - 1];
          }
        }
      }
    }
  }

  /** Where the increment lands: a new key is appended last, a stored key is
      updated at its own position and every other entry stays where it was. */
  lemma BumpInPlace(t: Tally, k: string)
    requires DistinctKeys(t)
    ensures k !in Keys(t) ==> Bump(t, k) == t + [(k, 1)]
    ensures forall i :: 0 <= i < |t| && t[i].0 == k ==> Bump(t, k) == t[i := (k, t[i].1 + 1)]
  {
    if k !in Keys(t) {
      BumpNewKey(t, k);
    }
    forall i | 0 <= i < |t| && t[i].0 == k ensures Bump(t, k) == t[i := (k, t[i].1 + 1)] {
      assert forall j :: 0 <= j < i ==> t[j].0 != t[i].0;
      BumpStoredKey(t, k, i);
    }
  }

  lemma {:induction false} BumpNewKey(t: Tally, k: string)
    requires k !in Keys(t)
    ensures Bump(t, k) == t + [(k, 1)]
  {
    if t != [] {
      assert t == [t[0]] + t[1..];
      KeysCons(t[0], t[1..]);
      BumpNewKey(t[1..], k);
    }
  }

  lemma {:induction false} BumpStoredKey(t: Tally, k: string, i: nat)
    requires i < |t| && t[i].0 == k
    requires forall j :: 0 <= j < i ==> t[j].0 != k
    ensures Bump(t, k) == t[i := (k, t[i].1 + 1)]
  {
    if i > 0 {
      var rest := t[1..];
      assert t[0].0 != k;
      forall j | 0 <= j < i - 1 ensures rest[j].0 != k {
        assert rest[j] == t[j + 1];
      }
      BumpStoredKey(rest, k, i - 1);
      assert t == [t[0]] + rest;
    }
  }

  /** Incrementing a key raises its count by one and leaves every other count. */
  lemma {:induction false} BumpCounts(t: Tally, k: string)
    requires DistinctKeys(t)
    ensures forall x :: CountOf(Bump(t, k), x) == CountOf(t, x) + (if x == k then 1 else 0)
  {
    if t != [] && t[0].0 == k {
      HeadNotInTail(t);
      forall x ensures CountOf(Bump(t, k), x) == CountOf(t, x) + (if x == k then 1 else 0) {
        assert Bump(t, k)[1..] == t[1..];
      }
    } else if t != [] {
      HeadNotInTail(t);
      BumpCounts(t[1..], k);
      assert Bump(t, k)[1..] == Bump(t[1..], k);
    }
  }

  /** Incrementing a key raises the total by one. */
  lemma {:induction false} BumpTotal(t: Tally, k: string)
    ensures Total(Bump(t, k)) == Total(t) + 1
  {
    if t != [] && t[0].0 == k {
      assert Bump(t, k)[1..] == t[1..];
    } else if t != [] {
      BumpTotal(t[1..], k);
      assert Bump(t, k)[1..] == Bump(t[1..], k);
    }
  }
}
