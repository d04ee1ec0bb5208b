/** The server's `users` table: a JavaScript Map from socket id to user record.
    A JS Map iterates in insertion order, and `set` on a key that is already
    present replaces the value in place, so the table is an insertion-ordered
    sequence of records keyed by their `id` field. */
module UserMap {
  import opened ChatTypes

  /** The keys of the table. */
  function Ids(t: seq<User>): (ids: set<Id>)
    ensures forall u :: u in t ==> u.id in ids
  {
    if t == [] then {} else {t[0].id} + Ids(t[1..])
  }

  /** No key occurs twice (every JS Map has this property). */
  ghost predicate Distinct(t: seq<User>) {
    forall i, j :: 0 <= i < j < |t| ==> t[i].id != t[j].id
  }

  /** `users.get(id)`. */
  function Get(t: seq<User>, id: Id): (r: Option<User>)
    ensures r.Some? <==> id in Ids(t)
    ensures r.Some? ==> r.value in t && r.value.id == id
  {
    if t == [] then None
    else if t[0].id == id then Some(t[0])
    else Get(t[1..], id)
  }

  /** `users.set(u.id, u)`: replaces the entry for `u.id` where it stands, or appends one. */
  function Put(t: seq<User>, u: User): (r: seq<User>)
    ensures Get(r, u.id) == Some(u)
    ensures forall id :: id != u.id ==> Get(r, id) == Get(t, id)
    ensures Ids(r) == Ids(t) + {u.id}
  {
    if t == [] then [u]
    else if t[0].id == u.id then [u] + t[1..]
    else [t[0]] + Put(t[1..], u)
  }

  /** `set` appends a new key at the end and leaves an existing key where it stands. */
  lemma {:induction false} PutOrder(t: seq<User>, u: User)
    ensures u.id !in Ids(t) ==> Put(t, u) == t + [u]
    ensures u.id in Ids(t) ==> |Put(t, u)| == |t|
    ensures forall i :: 0 <= i < |t| && t[i].id != u.id ==> i < |Put(t, u)| && Put(t, u)[i] == t[i]
  {
    if t != [] && t[0].id != u.id {
      PutOrder(t[1..], u);
      assert Put(t, u) == [t[0]] + Put(t[1..], u);
      assert t == [t[0]] + t[1..];
    }
  }

  /** `users.delete(id)`: the remaining entries keep their order (`RemoveOrder`). */
  function Remove(t: seq<User>, id: Id): (r: seq<User>)
    ensures Get(r, id) == None
    ensures forall other :: other != id ==> Get(r, other) == Get(t, other)
    ensures Ids(r) == Ids(t) - {id}
    ensures forall u :: u in r <==> u in t && u.id != id
  {
    if t == [] then []
    else if t[0].id == id then Remove(t[1..], id)
    else [t[0]] + Remove(t[1..], id)
  }

  /** `Array.from(users.values()).find(u => u.username === name)`, as the index
      of the record found: the first record, in insertion order, with that name. */
  function FindByName(t: seq<User>, name: string): (r: Option<nat>)
    ensures r.Some? ==> r.value < |t| && t[r.value].username == name
    ensures r.Some? ==> forall j :: 0 <= j < r.value ==> t[j].username != name
    ensures r.None? <==> forall j :: 0 <= j < |t| ==> t[j].username != name
  {
    if t == [] then None
    else if t[0].username == name then Some(0)
    else match FindByName(t[1..], name)
      case None => None
      case Some(k) => Some(k + 1)
  }

  /** A key that no record carries is not a key of the table. */
  lemma {:induction false} AbsentId(t: seq<User>, id: Id)
    requires forall i :: 0 <= i < |t| ==> t[i].id != id
    ensures id !in Ids(t)
  {
    if t != [] {
      AbsentId(t[1..], id);
    }
  }

  /** In a table without repeated keys, the first key does not occur in the rest. */
  lemma DistinctTail(t: seq<User>)
    requires Distinct(t) && t != []
    ensures Distinct(t[1..]) && t[0].id !in Ids(t[1..])
  {
    AbsentId(t[1..], t[0].id);
  }

  /** A record whose key is not yet in a table without repeated keys may be put in front of it. */
  lemma DistinctCons(u: User, t: seq<User>)
    requires Distinct(t) && u.id !in Ids(t)
    ensures Distinct([u] + t)
  {
    forall i, j | 0 <= i < j < |t| + 1 ensures ([u] + t)[i].id != ([u] + t)[j].id {
      if i == 0 {
        assert ([u] + t)[j] == t[j - 1];
      }
    }
  }

  /** Putting a record keeps the keys distinct. */
  lemma {:induction false} PutDistinct(t: seq<User>, u: User)
    ensures Distinct(t) ==> Distinct(Put(t, u))
  {
    if Distinct(t) && t != [] {
      DistinctTail(t);
      if t[0].id != u.id {
        PutDistinct(t[1..], u);
        DistinctCons(t[0], Put(t[1..], u));
      } else {
        DistinctCons(u, t[1..]);
      }
    }
  }

  /** Removing a record keeps the keys distinct. */
  lemma {:induction false} RemoveDistinct(t: seq<User>, id: Id)
    ensures Distinct(t) ==> Distinct(Remove(t, id))
  {
    if Distinct(t) && t != [] {
      DistinctTail(t);
      RemoveDistinct(t[1..], id);
      if t[0].id != id {
        DistinctCons(t[0], Remove(t[1..], id));
      }
    }
  }

  /** Deleting a key the table does not hold leaves it as it is. */
  lemma {:induction false} RemoveAbsent(t: seq<User>, id: Id)
    requires id !in Ids(t)
    ensures Remove(t, id) == t
  {
    if t != [] {
      RemoveAbsent(t[1..], id);
      assert t == [t[0]] + t[1..];
    }
  }

  /** Dropping element `k > 0` of `t` is keeping `t[0]` and dropping element `k - 1` of the rest. */
  lemma DropAt<T>(t: seq<T>, k: nat)
    requires 0 < k < |t|
    ensures t[..k] + t[k + 1..] == [t[0]] + (t[1..][..k - 1] + t[1..][k..])
  {
    assert t[1..][..k - 1] == t[1..k];
    assert t[1..][k..] == t[k + 1..];
    assert t[..k] == [t[0]] + t[1..k];
  }

  /** `delete` takes out the one entry carrying the key; the entries before and
      after it keep their order. */
  lemma {:induction false} RemoveOrder(t: seq<User>, id: Id, k: nat)
    requires Distinct(t) && k < |t| && t[k].id == id
    ensures Remove(t, id) == t[..k] + t[k + 1..]
  {
    DistinctTail(t);
    if k == 0 {
      RemoveAbsent(t[1..], id);
    } else {
      assert t[0].id != t[k].id;
      RemoveOrder(t[1..], id, k - 1);
      DropAt(t, k);
    }
  }

  /** Putting a record under a new key and then removing that key gives back the table. */
  lemma {:induction false} RemovePut(t: seq<User>, u: User)
    requires u.id !in Ids(t)
    ensures Remove(Put(t, u), u.id) == t
  {
    if t != [] {
      RemovePut(t[1..], u);
    }
  }
}
