/** One database collection held in memory: documents by id, the order in
    which they were inserted, and the insertion counter that stands in for
    the `createdAt` timestamp each document receives. */
module Tables {
  import opened Values

  /** A stored document: its id, its creation stamp and its fields. */
  datatype Doc<R> = Doc(id: Id, createdAt: nat, record: R)

  /** `clock` is the stamp the next inserted document receives. */
  datatype Table<R> = Table(docs: map<Id, Doc<R>>, order: seq<Id>, clock: nat)
  {
    /** The collection's invariant: each document is filed under its own id,
        the insertion order lists exactly the stored ids, stamps strictly
        increase along that order and every stamp was handed out before
        `clock`. */
    ghost predicate Valid()
    {
      && (forall id :: id in docs ==> docs[id].id == id && docs[id].createdAt < clock)
      && (forall id :: id in docs <==> id in order)
      && Ascending(order)
    }

    /** Stamps strictly increase along `ids`. */
    ghost predicate Ascending(ids: seq<Id>)
    {
      && (forall id :: id in ids ==> id in docs)
      && (forall i, j :: 0 <= i < j < |ids| ==> docs[ids[i]].createdAt < docs[ids[j]].createdAt)
    }

    /** No two documents share a key: the natural-key invariant. */
    ghost predicate Unique<K>(key: R -> K)
    {
      forall a, b :: a in docs && b in docs && a != b ==> key(docs[a].record) != key(docs[b].record)
    }

    /** Every stored id satisfies `p`. */
    ghost predicate IdsSatisfy(p: Id -> bool)
    {
      forall id :: id in docs ==> p(id)
    }

    /** `findOne({ <key fields>: k }) != null`. */
    predicate HasKey<K(==)>(key: R -> K, k: K)
    {
      exists id :: id in docs && key(docs[id].record) == k
    }

    /** `findOne({ <key fields>: k, _id: { $ne: except } }) != null`. */
    predicate HasKeyElsewhere<K(==)>(key: R -> K, k: K, except: Id)
    {
      exists id :: id in docs && id != except && key(docs[id].record) == k
    }

    /** The keys the stored documents have: `k` is among them exactly when a
        lookup by `k` finds a document. */
    function Keys<K(==,!new)>(key: R -> K): (ks: set<K>)
      ensures forall k :: k in ks <==> HasKey(key, k)
    {
      set id | id in docs :: key(docs[id].record)
    }

    /** `new Model(r).save()`: stamped with the counter, which moves on. */
    function Insert(id: Id, r: R): Table<R>
    {
      Table(docs[id := Doc(id, clock, r)], order + [id], clock + 1)
    }

    /** `findByIdAndUpdate(id, { $set: ... })`: new fields, same id and stamp. */
    function Replace(id: Id, r: R): Table<R>
      requires id in docs
    {
      Table(docs[id := docs[id].(record := r)], order, clock)
    }

    /** `findByIdAndDelete(id)`. */
    function Remove(id: Id): Table<R>
    {
      Table(docs - {id}, Without(order, id), clock)
    }

    /** The documents among `ids` that satisfy `keep`, last id first. */
    function Select(ids: seq<Id>, keep: R -> bool): seq<Doc<R>>
      requires forall id :: id in ids ==> id in docs
    {
      if ids == [] then []
      else
        var last := ids[|ids| - 1];
        var tail := Select(ids[..|ids| - 1], keep);
        if keep(docs[last].record) then [docs[last]] + tail else tail
    }

    /** Everything `Select` lists is a stored document among `ids` that
        satisfies `keep`. */
    lemma {:induction false} SelectSound(ids: seq<Id>, keep: R -> bool)
      requires forall id :: id in ids ==> id in docs
      requires forall id :: id in docs ==> docs[id].id == id
      ensures forall d :: d in Select(ids, keep) ==> d.id in ids && docs[d.id] == d && keep(d.record)
    {
      if ids != [] {
        var rest := ids[..|ids| - 1];
        SelectSound(rest, keep);
        forall d | d in Select(rest, keep) ensures d.id in ids {
          var i :| 0 <= i < |rest| && rest[i] == d.id;
          assert ids[i] == d.id;
        }
      }
    }

    /** `Select` lists every stored document among `ids` that satisfies `keep`. */
    lemma {:induction false} SelectComplete(ids: seq<Id>, keep: R -> bool)
      requires forall id :: id in ids ==> id in docs
      ensures forall id :: id in ids && keep(docs[id].record) ==> docs[id] in Select(ids, keep)
    {
      if ids != [] {
        var last, rest := ids[|ids| - 1], ids[..|ids| - 1];
        SelectComplete(rest, keep);
        forall id | id in ids && keep(docs[id].record) ensures docs[id] in Select(ids, keep) {
          var i :| 0 <= i < |ids| && ids[i] == id;
          if i < |ids| - 1 { assert rest[i] == id; }
        }
      }
    }

    /** Along ascending `ids`, `Select` lists documents newest first. */
    lemma {:induction false} SelectDescending(ids: seq<Id>, keep: R -> bool)
      requires Ascending(ids)
      requires forall id :: id in docs ==> docs[id].id == id
      ensures Descending(Select(ids, keep))
    {
      if ids != [] {
        var last, rest := ids[|ids| - 1], ids[..|ids| - 1];
        assert Ascending(rest);
        SelectDescending(rest, keep);
        SelectSound(rest, keep);
        var tail := Select(rest, keep);
        forall d | d in tail ensures d.createdAt < docs[last].createdAt {
          var i :| 0 <= i < |rest| && rest[i] == d.id;
          assert ids[i] == d.id;
        }
        var r := Select(ids, keep);
        if keep(docs[last].record) {
          assert r == [docs[last]] + tail;
          forall i, j | 0 <= i < j < |r| ensures r[i].createdAt > r[j].createdAt {
            assert Descending(tail);
            assert r[j] == tail[j - 1] && r[j] in tail;
            if i == 0 {
              assert r[i] == docs[last];
            } else {
              assert r[i] == tail[i - 1];
            }
          }
        } else {
          assert r == tail;
        }
      }
    }

    /** `find(filter).sort({ createdAt: -1 })`: every stored document that
        satisfies `keep` and nothing else, newest first. */
    function NewestFirst(keep: R -> bool): (r: seq<Doc<R>>)
      requires Valid()
      ensures forall d :: d in r ==> d.id in docs && docs[d.id] == d && keep(d.record)
      ensures forall id :: id in docs && keep(docs[id].record) ==> docs[id] in r
      ensures Descending(r)
    {
      SelectSound(order, keep);
      SelectComplete(order, keep);
      SelectDescending(order, keep);
      Select(order, keep)
    }

    /** Inserting under a fresh id keeps the invariant. */
    lemma InsertValid(id: Id, r: R)
      requires Valid() && id !in docs
      ensures Insert(id, r).Valid()
    {
      var t := Insert(id, r);
      forall i, j | 0 <= i < j < |t.order|
        ensures t.docs[t.order[i]].createdAt < t.docs[t.order[j]].createdAt
      {
        assert t.order[i] == order[i] && order[i] in docs;
        if j < |order| {
          assert t.order[j] == order[j];
        }
      }
    }

    /** Replacing a document's fields keeps the invariant. */
    lemma ReplaceValid(id: Id, r: R)
      requires Valid() && id in docs
      ensures Replace(id, r).Valid()
    {
    }

    /** Deleting a document keeps the invariant. */
    lemma RemoveValid(id: Id)
      requires Valid()
      ensures Remove(id).Valid()
    {
      var t := Remove(id);
      assert forall k :: k in t.docs <==> k in t.order;
      WithoutSubsequence(order, id);
      forall i, j | 0 <= i < j < |t.order|
        ensures t.docs[t.order[i]].createdAt < t.docs[t.order[j]].createdAt
      {
        var i', j' := WithoutIndex(order, id, i), WithoutIndex(order, id, j);
        assert t.order[i] == order[i'] && t.order[j] == order[j'] && i' < j';
      }
    }

    /** A record whose key no stored document has can be inserted without
        breaking uniqueness. */
    lemma InsertUnique<K>(key: R -> K, id: Id, r: R)
      requires Unique(key) && id !in docs
      requires forall k :: k in docs ==> key(docs[k].record) != key(r)
      ensures Insert(id, r).Unique(key)
    {
    }

    /** A record whose key no other document has can replace a stored one
        without breaking uniqueness. */
    lemma ReplaceUnique<K>(key: R -> K, id: Id, r: R)
      requires Unique(key) && id in docs
      requires forall k :: k in docs && k != id ==> key(docs[k].record) != key(r)
      ensures Replace(id, r).Unique(key)
    {
    }

    /** Deleting a document keeps uniqueness. */
    lemma RemoveUnique<K>(key: R -> K, id: Id)
      requires Unique(key)
      ensures Remove(id).Unique(key)
    {
    }
  }

  /** Newest first: stamps strictly decrease along `s`. */
  ghost predicate Descending<R>(s: seq<Doc<R>>)
  {
    forall i, j :: 0 <= i < j < |s| ==> s[i].createdAt > s[j].createdAt
  }

  /** `s` with every occurrence of `x` removed, in order. */
  function Without(s: seq<Id>, x: Id): (r: seq<Id>)
    ensures forall y :: y in r <==> y in s && y != x
    ensures |r| <= |s|
  {
    if s == [] then []
    else if s[0] == x then Without(s[1..], x)
    else [s[0]] + Without(s[1..], x)
  }

  /** The position in `s` of the `i`-th element of `Without(s, x)`, computed
      so that positions keep their order. */
  function WithoutIndex(s: seq<Id>, x: Id, i: nat): (k: nat)
    requires i < |Without(s, x)|
    ensures k < |s| && s[k] == Without(s, x)[i]
    decreases s
  {
    if s[0] == x then 1 + WithoutIndex(s[1..], x, i)
    else if i == 0 then 0
    else 1 + WithoutIndex(s[1..], x, i - 1)
  }

  /** `WithoutIndex` is strictly increasing, so `Without(s, x)` is a
      subsequence of `s`. */
  lemma {:induction false} WithoutSubsequence(s: seq<Id>, x: Id)
    ensures forall i, j :: 0 <= i < j < |Without(s, x)| ==> WithoutIndex(s, x, i) < WithoutIndex(s, x, j)
  {
    if s != [] {
      WithoutSubsequence(s[1..], x);
    }
  }
}
