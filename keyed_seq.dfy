/** Ordered lists of sub-documents addressed by their `_id`: the three array
    operations the server and the page apply to groups, columns and tasks. */
module KeyedSeq {
  import opened Common

  /** Every key is below `n` (the id generator has not yet handed `n` out). */
  predicate KeysBelow<T>(s: seq<T>, key: T -> Id, n: nat) {
    forall i :: 0 <= i < |s| ==> key(s[i]) < n
  }

  /** No two elements share a key. */
  predicate Distinct<T>(s: seq<T>, key: T -> Id) {
    forall i, j :: 0 <= i < j < |s| ==> key(s[i]) != key(s[j])
  }

  /** Index of the first element whose key is `id`, as Mongoose's
      `DocumentArray.id(id)` finds it. */
  function IndexOf<T>(s: seq<T>, key: T -> Id, id: Id): (r: Option<nat>)
    ensures r.Some? ==> r.value < |s| && key(s[r.value]) == id
    ensures r.Some? ==> forall j :: 0 <= j < r.value ==> key(s[j]) != id
    ensures r.None? <==> forall j :: 0 <= j < |s| ==> key(s[j]) != id
  {
    if |s| == 0 then None
    else if key(s[0]) == id then Some(0)
    else match IndexOf(s[1..], key, id)
      case None => None
      case Some(k) => Some(k + 1)
  }

  /** `s.filter(x => x._id !== id)`. */
  function RemoveAll<T>(s: seq<T>, key: T -> Id, id: Id): (r: seq<T>)
    ensures |r| <= |s|
    ensures forall i :: 0 <= i < |r| ==> key(r[i]) != id && r[i] in s
    ensures forall i :: 0 <= i < |s| && key(s[i]) != id ==> s[i] in r
  {
    if |s| == 0 then []
    else if key(s[0]) == id then RemoveAll(s[1..], key, id)
    else [s[0]] + RemoveAll(s[1..], key, id)
  }

  /** `s.map(x => x._id === id ? f(x) : x)`. */
  function MapWhere<T>(s: seq<T>, key: T -> Id, id: Id, f: T -> T): (r: seq<T>)
    ensures |r| == |s|
    ensures forall i :: 0 <= i < |s| ==> r[i] == if key(s[i]) == id then f(s[i]) else s[i]
  {
    if |s| == 0 then []
    else [if key(s[0]) == id then f(s[0]) else s[0]] + MapWhere(s[1..], key, id, f)
  }

  /** `s.map(x => x._id === item._id ? item : x)`: the edit callbacks' replacement. */
  function Replace<T>(s: seq<T>, key: T -> Id, item: T): (r: seq<T>)
    ensures |r| == |s|
    ensures forall i :: 0 <= i < |s| ==> r[i] == if key(s[i]) == key(item) then item else s[i]
  {
    MapWhere(s, key, key(item), _ => item)
  }

  /** Filtering keeps the relative order: it distributes over concatenation. */
  lemma {:induction false} RemoveAllAppend<T>(a: seq<T>, b: seq<T>, key: T -> Id, id: Id)
    ensures RemoveAll(a + b, key, id) == RemoveAll(a, key, id) + RemoveAll(b, key, id)
  {
    if |a| == 0 {
      assert a + b == b;
    } else {
      assert (a + b)[1..] == a[1..] + b;
      RemoveAllAppend(a[1..], b, key, id);
    }
  }

  /** Removing an id no element carries changes nothing. */
  lemma {:induction false} RemoveAllAbsent<T>(s: seq<T>, key: T -> Id, id: Id)
    requires IndexOf(s, key, id).None?
    ensures RemoveAll(s, key, id) == s
  {
    if |s| > 0 {
      assert IndexOf(s[1..], key, id).None? by {
        forall j | 0 <= j < |s[1..]| ensures key(s[1..][j]) != id {
          assert s[1..][j] == s[j + 1];
        }
      }
      RemoveAllAbsent(s[1..], key, id);
      assert [s[0]] + s[1..] == s;
    }
  }

  /** Deleting twice is deleting once. */
  lemma RemoveAllIdempotent<T>(s: seq<T>, key: T -> Id, id: Id)
    ensures RemoveAll(RemoveAll(s, key, id), key, id) == RemoveAll(s, key, id)
  {
    var r := RemoveAll(s, key, id);
    forall j | 0 <= j < |r| ensures key(r[j]) != id {
      assert r[j] in r;
    }
    RemoveAllAbsent(r, key, id);
  }

  /** After the filter no element carries the removed id. */
  lemma RemoveAllLeavesNone<T>(s: seq<T>, key: T -> Id, id: Id)
    ensures IndexOf(RemoveAll(s, key, id), key, id).None?
  {
    var r := RemoveAll(s, key, id);
    forall j | 0 <= j < |r| ensures key(r[j]) != id {
      assert r[j] in r;
    }
  }

  /** A key no element carries is not brought in by the filter. */
  lemma {:induction false} RemoveAllKeepsAbsentKey<T>(s: seq<T>, key: T -> Id, id: Id, v: Id)
    requires IndexOf(s, key, v).None?
    ensures IndexOf(RemoveAll(s, key, id), key, v).None?
  {
    if |s| > 0 {
      assert IndexOf(s[1..], key, v).None? by {
        forall j | 0 <= j < |s[1..]| ensures key(s[1..][j]) != v {
          assert s[1..][j] == s[j + 1];
        }
      }
      RemoveAllKeepsAbsentKey(s[1..], key, id, v);
    }
  }

  /** Filtering keeps keys fresh and distinct. */
  lemma {:induction false} RemoveAllKeepsKeys<T>(s: seq<T>, key: T -> Id, id: Id, n: nat)
    requires KeysBelow(s, key, n) && Distinct(s, key)
    ensures KeysBelow(RemoveAll(s, key, id), key, n) && Distinct(RemoveAll(s, key, id), key)
  {
    if |s| > 0 {
      var tail := s[1..];
      assert KeysBelow(tail, key, n) && Distinct(tail, key) by {
        forall i | 0 <= i < |tail| ensures tail[i] == s[i + 1] { }
      }
      RemoveAllKeepsKeys(tail, key, id, n);
      if key(s[0]) != id {
        var t := RemoveAll(tail, key, id);
        assert IndexOf(tail, key, key(s[0])).None? by {
          forall j | 0 <= j < |tail| ensures key(tail[j]) != key(s[0]) {
            assert tail[j] == s[j + 1];
          }
        }
        RemoveAllKeepsAbsentKey(tail, key, id, key(s[0]));
        var r := [s[0]] + t;
        forall i, j | 0 <= i < j < |r| ensures key(r[i]) != key(r[j]) {
          assert r[j] == t[j - 1];
          if i > 0 { assert r[i] == t[i - 1]; }
        }
      }
    }
  }

  /** Appending an element with the next fresh key keeps keys fresh and distinct,
      and the appended element is the one a lookup of its key finds. */
  lemma AppendFresh<T>(s: seq<T>, key: T -> Id, x: T, n: nat)
    requires KeysBelow(s, key, n) && Distinct(s, key) && key(x) == n
    ensures KeysBelow(s + [x], key, n + 1) && Distinct(s + [x], key)
    ensures IndexOf(s + [x], key, n) == Some(|s|)
  {
    var t := s + [x];
    forall i | 0 <= i < |t| ensures key(t[i]) < n + 1 {
      if i < |s| { assert t[i] == s[i]; }
    }
    forall i, j | 0 <= i < j < |t| ensures key(t[i]) != key(t[j]) {
      assert t[i] == s[i];
      if j < |s| { assert t[j] == s[j]; }
    }
    assert key(t[|s|]) == n;
    forall j | 0 <= j < |s| ensures key(t[j]) != n {
      assert t[j] == s[j];
    }
  }

  /** Raising the bound keeps every key below it. */
  lemma KeysBelowMono<T>(s: seq<T>, key: T -> Id, n: nat, m: nat)
    requires KeysBelow(s, key, n) && n <= m
    ensures KeysBelow(s, key, m)
  {
  }

  /** Overwriting an element by one with the same key keeps every lookup's answer. */
  lemma IndexOfUpdate<T>(s: seq<T>, key: T -> Id, i: nat, y: T, id: Id)
    requires i < |s| && key(y) == key(s[i])
    ensures IndexOf(s[i := y], key, id) == IndexOf(s, key, id)
  {
    var t := s[i := y];
    assert forall j :: 0 <= j < |s| ==> key(t[j]) == key(s[j]);
  }

  /** With distinct keys, a lookup by the key of the element at `i` finds `i`. */
  lemma IndexOfDistinct<T>(s: seq<T>, key: T -> Id, i: nat)
    requires i < |s| && Distinct(s, key)
    ensures IndexOf(s, key, key(s[i])) == Some(i)
  {
  }

  /** With distinct keys, replacing by key is an update at the one matching index. */
  lemma ReplaceIsUpdate<T>(s: seq<T>, key: T -> Id, i: nat, item: T)
    requires i < |s| && Distinct(s, key) && key(s[i]) == key(item)
    ensures Replace(s, key, item) == s[i := item]
  {
    var r := Replace(s, key, item);
    forall j | 0 <= j < |s| ensures r[j] == s[i := item][j] {
      if j != i {
        if j < i { assert key(s[j]) != key(s[i]); } else { assert key(s[i]) != key(s[j]); }
      }
    }
  }
}
