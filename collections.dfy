/**
 The three collection operations the relationship filter relies on, stated by their
 plain sequence and map meaning: `flatten` of a list of name lists, `hasAny` of a
 key list against a keyed collection, and `only`, which keeps the entries whose key
 is listed.
 */
module Collections {

  /** `flatten()` on a list of name lists: every inner list, in order, one after the other.
      No lists flatten to nothing and a single list to itself; `FlattenSegment` places
      every inner list of a longer one. */
  function Flatten<T>(ls: seq<seq<T>>): (r: seq<T>)
    ensures ls == [] ==> r == []
    ensures |ls| == 1 ==> r == ls[0]
  {
    if ls == [] then [] else ls[0] + Flatten(ls[1..])
  }

  /** `hasAny($keys)`: some listed key is a key of the collection (false for no keys). */
  predicate HasAny<V>(m: map<string, V>, keys: seq<string>): (b: bool)
    ensures b <==> exists k :: k in m && k in keys
    ensures keys == [] ==> !b
  {
    exists i :: 0 <= i < |keys| && keys[i] in m
  }

  /** `only($keys)`: the entries of `m` whose key is listed, values untouched. */
  function Only<V>(m: map<string, V>, keys: seq<string>): (r: map<string, V>)
    ensures forall k :: k in r <==> k in m && k in keys
    ensures forall k :: k in r ==> r[k] == m[k]
  {
    map k | k in m && k in keys :: m[k]
  }

  /** Flattening distributes over concatenation of the outer list. */
  lemma {:induction false} FlattenAppend<T>(a: seq<seq<T>>, b: seq<seq<T>>)
    ensures Flatten(a + b) == Flatten(a) + Flatten(b)
    decreases |a|
  {
    if a == [] {
      assert a + b == b;
    } else {
      assert (a + b)[1..] == a[1..] + b;
      FlattenAppend(a[1..], b);
    }
  }

  /** A flattened list holds exactly the elements of its inner lists. */
  lemma {:induction false} FlattenMembership<T>(ls: seq<seq<T>>, x: T)
    ensures x in Flatten(ls) <==> exists i :: 0 <= i < |ls| && x in ls[i]
    decreases |ls|
  {
    if ls != [] {
      FlattenMembership(ls[1..], x);
      if x in Flatten(ls[1..]) {
        var i :| 0 <= i < |ls[1..]| && x in ls[1..][i];
        assert x in ls[i + 1];
      }
      if exists i :: 0 <= i < |ls| && x in ls[i] {
        var i :| 0 <= i < |ls| && x in ls[i];
        if i > 0 {
          assert x in ls[1..][i - 1];
        }
      }
    }
  }

  /** Inner list `i` appears whole, in place, between the lists before it and those after it. */
  lemma {:induction false} FlattenSegment<T>(ls: seq<seq<T>>, i: nat)
    requires i < |ls|
    ensures Flatten(ls) == Flatten(ls[..i]) + ls[i] + Flatten(ls[i + 1..])
  {
    var rest := [ls[i]] + ls[i + 1..];
    assert ls == ls[..i] + rest;
    FlattenAppend(ls[..i], rest);
    assert rest[0] == ls[i] && rest[1..] == ls[i + 1..];
    assert Flatten(rest) == ls[i] + Flatten(ls[i + 1..]);
  }

  /** Flattening never merges duplicates: an element in two inner lists occurs twice. */
  lemma FlattenKeepsDuplicates<T>(ls: seq<seq<T>>, i: nat, j: nat, x: T)
    requires i < j < |ls| && x in ls[i] && x in ls[j]
    ensures exists p, q :: 0 <= p < q < |Flatten(ls)| && Flatten(ls)[p] == x && Flatten(ls)[q] == x
  {
    var before := Flatten(ls[..j]);
    FlattenSegment(ls, j);
    FlattenMembership(ls[..j], x);
    assert x in ls[..j][i];
    var p :| 0 <= p < |before| && before[p] == x;
    var o :| 0 <= o < |ls[j]| && ls[j][o] == x;
    var q := |before| + o;
    assert Flatten(ls)[p] == x && Flatten(ls)[q] == x;
  }

  /** `hasAny` succeeds exactly when `only` keeps at least one entry. */
  lemma HasAnyIffOnlyNonEmpty<V>(m: map<string, V>, keys: seq<string>)
    ensures HasAny(m, keys) <==> Only(m, keys) != map[]
  {
  }

  /** Keeping the same keys twice keeps what the first pass kept. */
  lemma OnlyIdempotent<V>(m: map<string, V>, keys: seq<string>)
    ensures Only(Only(m, keys), keys) == Only(m, keys)
  {
  }

  /** Selecting a wider key list first and a narrower one afterwards is the narrower selection. */
  lemma OnlyNarrowing<V>(m: map<string, V>, outer: seq<string>, inner: seq<string>)
    requires forall k :: k in inner ==> k in outer
    ensures Only(Only(m, outer), inner) == Only(m, inner)
  {
  }
}
