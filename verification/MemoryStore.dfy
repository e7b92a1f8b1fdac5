/** The in-memory tuple store (internal/repositories/memory) of one tenant: rows with growing ids, filtered reads, and
    pages cut at a size, with writes and deletes between the pages. */
module MemoryStore {
  import opened Base

  /** The empty string and the empty list match everything. */
  datatype TupleFilter = TupleFilter(
    entityType: string, entityIds: seq<string>, relation: string,
    subjectType: string, subjectIds: seq<string>, subjectRelation: string)

  /** The negation of `FilterQuery`, which says what to leave out. */
  predicate Matches(f: TupleFilter, t: Tuple) {
    && (f.entityType != "" ==> t.entity.typ == f.entityType)
    && (|f.entityIds| > 0 ==> t.entity.id in f.entityIds)
    && (f.relation != "" ==> t.relation == f.relation)
    && (f.subjectType != "" ==> t.subject.typ == f.subjectType)
    && (|f.subjectIds| > 0 ==> t.subject.id in f.subjectIds)
    && (f.subjectRelation != "" ==> t.subject.relation == f.subjectRelation)
  }

  // ---------------------------------------------------------------- what filters select

  const NO_FILTER := TupleFilter("", [], "", "", [], "")

  lemma {:induction false} NoFilterSelectsAll(t: Tuple)
    ensures Matches(NO_FILTER, t)
  {
  }

  /** The filter that names all fields of a tuple. */
  function FilterOf(t: Tuple): TupleFilter {
    TupleFilter(t.entity.typ, [t.entity.id], t.relation, t.subject.typ, [t.subject.id], t.subject.relation)
  }

  /** It selects this tuple, and others only where a field of this one is empty. */
  lemma {:induction false} FullFilterSelectsOne(t: Tuple, u: Tuple)
    ensures Matches(FilterOf(t), t)
    ensures "" !in [t.entity.typ, t.relation, t.subject.typ, t.subject.relation] && Matches(FilterOf(t), u) ==> u == t
    ensures Matches(FilterOf(t), u) ==> u.entity.id == t.entity.id && u.subject.id == t.subject.id
  {
  }

  /** A filter that names one field selects by that field alone. */
  lemma {:induction false} OneFieldFilters(t: Tuple, name: string, ids: seq<string>)
    requires name != "" && ids != []
    ensures Matches(NO_FILTER.(entityType := name), t) <==> t.entity.typ == name
    ensures Matches(NO_FILTER.(entityIds := ids), t) <==> t.entity.id in ids
    ensures Matches(NO_FILTER.(relation := name), t) <==> t.relation == name
    ensures Matches(NO_FILTER.(subjectType := name), t) <==> t.subject.typ == name
    ensures Matches(NO_FILTER.(subjectIds := ids), t) <==> t.subject.id in ids
    ensures Matches(NO_FILTER.(subjectRelation := name), t) <==> t.subject.relation == name
  {
  }

  /** A filter selects what each of its fields selects. */
  lemma {:induction false} FieldsSelectTogether(f: TupleFilter, t: Tuple)
    ensures Matches(f, t) <==>
            && Matches(NO_FILTER.(entityType := f.entityType), t)
            && Matches(NO_FILTER.(entityIds := f.entityIds), t)
            && Matches(NO_FILTER.(relation := f.relation), t)
            && Matches(NO_FILTER.(subjectType := f.subjectType), t)
            && Matches(NO_FILTER.(subjectIds := f.subjectIds), t)
            && Matches(NO_FILTER.(subjectRelation := f.subjectRelation), t)
  {
  }

  /** A stored row: its id and its tuple. The index over all fields keeps one row for each tuple. */
  datatype Entry = Entry(id: nat, tuple: Tuple)

  predicate Sorted(l: seq<Entry>) {
    forall i, j :: 0 <= i < j < |l| ==> l[i].id < l[j].id
  }

  /** All matching rows in the order of their ids. */
  ghost predicate IsListing(l: seq<Entry>, rows: map<Tuple, nat>, f: TupleFilter) {
    && Sorted(l)
    && forall t, id :: Entry(id, t) in l <==> t in rows && rows[t] == id && Matches(f, t)
  }

  /** The entries from id `lower` on. */
  function From(l: seq<Entry>, lower: nat): seq<Entry> {
    if l == [] then []
    else if l[0].id >= lower then [l[0]] + From(l[1..], lower)
    else From(l[1..], lower)
  }

  lemma {:induction false} FromHolds(l: seq<Entry>, lower: nat)
    ensures forall e :: e in From(l, lower) <==> e in l && e.id >= lower
  {
    if l != [] {
      FromHolds(l[1..], lower);
      assert forall e :: e in l <==> e == l[0] || e in l[1..];
    }
  }

  lemma {:induction false} FromIsSorted(l: seq<Entry>, lower: nat)
    requires Sorted(l)
    ensures Sorted(From(l, lower))
  {
    if l != [] {
      FromIsSorted(l[1..], lower);
      FromHolds(l[1..], lower);
      var rest := From(l[1..], lower);
      forall i | 0 <= i < |rest|
        ensures l[0].id < rest[i].id
      {
        assert rest[i] in rest;
      }
    }
  }

  /** One page: at most `size` entries, and the id of the next entry if there is one. */
  function Page(l: seq<Entry>, lower: nat, size: nat): (seq<Entry>, Option<nat>) {
    var r := From(l, lower);
    if |r| > size then (r[..size], Some(r[size].id)) else (r, None)
  }

  // ---------------------------------------------------------------- the store

  class RelationTuples {
    var rows: map<Tuple, nat>
    /** The counter behind the ids; 0 before the first use. */
    var counter: nat

    ghost predicate Valid()
      reads this
    {
      && (forall t :: t in rows ==> 1 <= rows[t] < counter)
      && (forall t, u :: t in rows && u in rows && rows[t] == rows[u] ==> t == u)
    }

    constructor ()
      ensures Valid() && rows == map[] && counter == 0
    {
      rows, counter := map[], 0;
    }

    /** `AutoIncForRelationTuples.ID`: ids start at 1 and only grow. */
    method ID() returns (id: nat)
      modifies this`counter
      ensures id == NextId(old(counter)) && counter == id + 1
    {
      if counter == 0 {
        counter := counter + 1;
      }
      id := counter;
      counter := counter + 1;
    }

    /** Every written tuple gets a new id; a tuple that was stored loses its old row (`WriteGivesNewIds`). */
    method WriteRelationships(tuples: seq<Tuple>)
      requires Valid()
      modifies this
      ensures Valid() && Table(rows, counter) == Written(Table(old(rows), old(counter)), tuples)
    {
      assert tuples[0..] == tuples;
      for k := 0 to |tuples|
        invariant Valid()
        invariant Written(Table(rows, counter), tuples[k..]) == Written(Table(old(rows), old(counter)), tuples)
      {
        assert tuples[k..][1..] == tuples[k + 1..];
        var id := ID();
        rows := rows[tuples[k] := id];
      }
    }

    method DeleteRelationships(f: TupleFilter)
      requires Valid()
      modifies this`rows
      ensures Valid()
      ensures rows == map t | t in old(rows) && !Matches(f, t) :: old(rows)[t]
    {
      hide Matches;
      var pending := rows.Keys;
      while pending != {}
        invariant pending <= old(rows).Keys
        invariant rows == map t | t in old(rows) && (t in pending || !Matches(f, t)) :: old(rows)[t]
        decreases |pending|
      {
        var t :| t in pending;
        if Matches(f, t) {
          rows := rows - {t};
        }
        pending := pending - {t};
      }
    }

    /** `ReadRelationships` for the lower bound of a decoded token: a page of the one sorted listing. */
    method ReadRelationships(f: TupleFilter, lower: nat, size: nat) returns (page: seq<Entry>, token: Option<nat>)
      requires Valid()
      ensures exists l :: IsListing(l, rows, f) && (page, token) == Page(l, lower, size)
    {
      hide IsListing, Sorted;
      var tup := Collect(f);
      page, token := CutPage(tup, lower, size);
    }

    /** The stored tuples that match, each once. */
    method QueryRelationships(f: TupleFilter) returns (collection: seq<Tuple>)
      requires Valid()
      ensures forall t :: t in collection <==> t in rows && Matches(f, t)
      ensures forall i, j :: 0 <= i < j < |collection| ==> collection[i] != collection[j]
    {
      collection := [];
      var pending := rows.Keys;
      while pending != {}
        invariant pending <= rows.Keys
        invariant forall t :: t in collection <==> t in rows && t !in pending && Matches(f, t)
        invariant forall i, j :: 0 <= i < j < |collection| ==> collection[i] != collection[j]
        decreases |pending|
      {
        var t :| t in pending;
        if Matches(f, t) {
          collection := collection + [t];
        }
        pending := pending - {t};
      }
    }

    /** The ids of the stored entities of a type, each once. */
    method GetUniqueEntityIDsByEntityType(typ: string) returns (ids: seq<string>)
      ensures NoDuplicates(ids)
      ensures forall id :: id in ids <==> exists t :: t in rows && t.entity == Entity(typ, id)
    {
      var result := [];
      var pending := rows.Keys;
      while pending != {}
        invariant pending <= rows.Keys
        invariant forall id :: id in result <==> exists t :: t in rows && t !in pending && t.entity == Entity(typ, id)
        decreases |pending|
      {
        var t :| t in pending;
        ghost var before, left := result, pending;
        if t.entity.typ == typ {
          result := result + [t.entity.id];
        }
        pending := pending - {t};
        forall id
          ensures id in result <==> exists u :: u in rows && u !in pending && u.entity == Entity(typ, id)
        {
          if u :| u in rows && u !in left && u.entity == Entity(typ, id) {
            assert u !in pending;
          }
          if t.entity == Entity(typ, id) {
            assert t in rows && t !in pending;
          }
        }
      }
      ids := RemoveDuplicate(result);
      DistinctIsTheSet(result);
    }

    /** The matching rows, each inserted at the place of its id. */
    method Collect(f: TupleFilter) returns (l: seq<Entry>)
      requires Valid()
      ensures IsListing(l, rows, f)
    {
      l := [];
      var pending := rows.Keys;
      while pending != {}
        invariant pending <= rows.Keys && Sorted(l)
        invariant forall t, id :: Entry(id, t) in l <==> t in rows && t !in pending && rows[t] == id && Matches(f, t)
        decreases |pending|
      {
        var t :| t in pending;
        if Matches(f, t) {
          forall e | e in l
            ensures e.id != rows[t]
          {
            assert Entry(e.id, e.tuple) in l;
          }
          l := Insert(l, Entry(rows[t], t));
        }
        pending := pending - {t};
      }
    }
  }

  ghost predicate NoDuplicates(s: seq<string>) {
    forall i, j :: 0 <= i < j < |s| ==> s[i] != s[j]
  }

  /** The items of `s` in the order of their first occurrence. */
  function FirstOccurrences(s: seq<string>): seq<string> {
    if s == [] then []
    else
      var front := FirstOccurrences(s[..|s| - 1]);
      if s[|s| - 1] in s[..|s| - 1] then front else front + [s[|s| - 1]]
  }

  lemma {:induction false} DistinctIsTheSet(s: seq<string>)
    ensures NoDuplicates(FirstOccurrences(s)) && forall x :: x in FirstOccurrences(s) <==> x in s
  {
    if s != [] {
      DistinctIsTheSet(s[..|s| - 1]);
      assert s == s[..|s| - 1] + [s[|s| - 1]];
    }
  }

  function FirstAt(s: seq<string>, x: string): nat {
    if s == [] || s[0] == x then 0 else 1 + FirstAt(s[1..], x)
  }

  lemma {:induction false} FirstAtFront(front: seq<string>, last: string, x: string)
    ensures x in front ==> FirstAt(front + [last], x) == FirstAt(front, x) < |front|
    ensures x !in front ==> FirstAt(front + [last], x) >= |front|
  {
    if front != [] {
      assert (front + [last])[1..] == front[1..] + [last];
      FirstAtFront(front[1..], last, x);
    }
  }

  ghost predicate InOrder(s: seq<string>, r: seq<string>) {
    forall i, j {:trigger r[i], r[j]} :: 0 <= i < j < |r| ==> FirstAt(s, r[i]) < FirstAt(s, r[j])
  }

  /** They come in the order in which the items occur first. */
  lemma {:induction false} FirstOccurrencesKeepOrder(s: seq<string>)
    ensures InOrder(s, FirstOccurrences(s))
  {
    if s != [] {
      var front, last := s[..|s| - 1], s[|s| - 1];
      assert s == front + [last];
      FirstOccurrencesKeepOrder(front);
      DistinctIsTheSet(front);
      var r := FirstOccurrences(front);
      forall i | 0 <= i < |r|
        ensures FirstAt(s, r[i]) == FirstAt(front, r[i]) < |front|
      {
        assert r[i] in r;
        FirstAtFront(front, last, r[i]);
      }
      FirstAtFront(front, last, last);
      var all := FirstOccurrences(s);
      forall i, j | 0 <= i < j < |all|
        ensures FirstAt(s, all[i]) < FirstAt(s, all[j])
      {
        assert all[i] == r[i] && all[j] == if j < |r| then r[j] else last;
        if j < |r| {
          assert FirstAt(front, r[i]) < FirstAt(front, r[j]);
        } else {
          assert last !in front;
        }
      }
    }
  }

  method RemoveDuplicate(s: seq<string>) returns (list: seq<string>)
    ensures list == FirstOccurrences(s)
  {
    var allKeys: map<string, bool> := map[];
    list := [];
    for i := 0 to |s|
      invariant forall x :: x in allKeys <==> x in s[..i]
      invariant list == FirstOccurrences(s[..i])
    {
      assert s[..i + 1][..i] == s[..i];
      if s[i] !in allKeys {
        allKeys := allKeys[s[i] := true];
        list := list + [s[i]];
      }
      assert s[..i + 1] == s[..i] + [s[i]];
    }
    assert s[..|s|] == s;
  }

  /** The loop of `ReadRelationships` over the sorted rows. */
  method CutPage(tup: seq<Entry>, lower: nat, size: nat) returns (page: seq<Entry>, token: Option<nat>)
    ensures (page, token) == Page(tup, lower, size)
  {
    hide Sorted;
    page := [];
    assert tup[0..] == tup;
    for i := 0 to |tup|
      invariant page + From(tup[i..], lower) == From(tup, lower)
      invariant |page| <= size
    {
      FromStep(tup, i, lower);
      if tup[i].id >= lower {
        ghost var rest := From(tup[i + 1..], lower);
        assert page + ([tup[i]] + rest) == page + [tup[i]] + rest;
        page := page + [tup[i]];
        if |page| > size {
          return page[..size], Some(tup[i].id);
        }
      }
    }
    assert From(tup[|tup|..], lower) == [];
    assert page + [] == page;
    return page, None;
  }

  lemma {:induction false} FromStep(tup: seq<Entry>, i: nat, lower: nat)
    requires i < |tup|
    ensures From(tup[i..], lower) ==
            (if tup[i].id >= lower then [tup[i]] + From(tup[i + 1..], lower) else From(tup[i + 1..], lower))
  {
    hide Sorted;
    assert tup[i..][1..] == tup[i + 1..];
  }

  /** The rows and the id counter after a batch. */
  datatype Table = Table(rows: map<Tuple, nat>, counter: nat)

  function NextId(counter: nat): nat {
    if counter == 0 then 1 else counter
  }

  function Written(s: Table, tuples: seq<Tuple>): Table
    decreases |tuples|
  {
    if tuples == [] then s
    else Written(Table(s.rows[tuples[0] := NextId(s.counter)], NextId(s.counter) + 1), tuples[1..])
  }

  /** A batch adds exactly its tuples, each under an id larger than all before; the other rows keep theirs. */
  lemma {:induction false} WriteGivesNewIds(s: Table, tuples: seq<Tuple>)
    ensures var w := Written(s, tuples);
            && w.counter >= s.counter
            && w.rows.Keys == s.rows.Keys + (set t | t in tuples)
            && (forall t :: t in s.rows && t !in tuples ==> w.rows[t] == s.rows[t])
            && (forall t :: t in tuples ==> NextId(s.counter) <= w.rows[t] < w.counter)
    decreases |tuples|
  {
    if tuples != [] {
      var id := NextId(s.counter);
      WriteGivesNewIds(Table(s.rows[tuples[0] := id], id + 1), tuples[1..]);
      assert forall t :: t in tuples <==> t == tuples[0] || t in tuples[1..];
    }
  }

  /** The ids grow along the batch; of a tuple written twice the last write counts. */
  lemma {:induction false} IdsGrowAlongTheBatch(s: Table, tuples: seq<Tuple>, i: nat, j: nat)
    requires i < j < |tuples| && tuples[i] !in tuples[i + 1..]
    ensures tuples[i] in Written(s, tuples).rows && tuples[j] in Written(s, tuples).rows
    ensures Written(s, tuples).rows[tuples[i]] < Written(s, tuples).rows[tuples[j]]
    decreases |tuples|
  {
    var id := NextId(s.counter);
    var s' := Table(s.rows[tuples[0] := id], id + 1);
    var rest := tuples[1..];
    assert tuples[j] == rest[j - 1];
    WriteGivesNewIds(s', rest);
    if i > 0 {
      assert tuples[i] == rest[i - 1];
      assert tuples[i + 1..] == rest[i..];
      IdsGrowAlongTheBatch(s', rest, i - 1, j - 1);
    }
  }

  function Insert(l: seq<Entry>, x: Entry): (r: seq<Entry>)
    requires Sorted(l) && forall e :: e in l ==> e.id != x.id
    ensures Sorted(r) && forall e :: e in r <==> e in l || e == x
  {
    if l == [] then [x]
    else if x.id < l[0].id then
      assert forall e :: e in l ==> x.id < e.id;
      [x] + l
    else
      var rest := Insert(l[1..], x);
      assert forall e :: e in l <==> e == l[0] || e in l[1..];
      assert forall e :: e in rest ==> l[0].id < e.id;
      [l[0]] + rest
  }

  // ---------------------------------------------------------------- walking through the pages

  /** One read of a walk: the rows stored at that moment, the matching ones in order, the lower bound asked for, and
      the answer. */
  datatype Visit = Visit(rows: map<Tuple, nat>, listing: seq<Entry>, lower: nat, page: seq<Entry>, token: Option<nat>)

  /** A client reads page after page, passing on the token; anything may be written or deleted in between. */
  ghost predicate IsWalk(vs: seq<Visit>, f: TupleFilter, size: nat) {
    && vs != [] && vs[0].lower == 0
    && (forall k :: 0 <= k < |vs| ==>
          IsListing(vs[k].listing, vs[k].rows, f) &&
          (vs[k].page, vs[k].token) == Page(vs[k].listing, vs[k].lower, size))
    && (forall k :: 0 < k < |vs| ==> vs[k - 1].token == Some(vs[k].lower))
  }

  /** The tuple matches and was stored under the same id at every visit. */
  ghost predicate Lasting(vs: seq<Visit>, f: TupleFilter, e: Entry) {
    Matches(f, e.tuple) && forall k :: 0 <= k < |vs| ==> e.tuple in vs[k].rows && vs[k].rows[e.tuple] == e.id
  }

  function Returned(vs: seq<Visit>): seq<Entry> {
    if vs == [] then [] else Returned(vs[..|vs| - 1]) + vs[|vs| - 1].page
  }

  lemma {:induction false} PageBounds(l: seq<Entry>, lower: nat, size: nat)
    requires Sorted(l)
    ensures var (page, token) := Page(l, lower, size);
            && Sorted(page)
            && (forall e :: e in page ==> e in l && lower <= e.id && (token.Some? ==> e.id < token.value))
            && (token.Some? ==> lower <= token.value)
            && (forall e :: e in l && lower <= e.id && (token.Some? ==> e.id < token.value) ==> e in page)
  {
    var r := From(l, lower);
    FromHolds(l, lower);
    FromIsSorted(l, lower);
    if |r| > size {
      assert r == r[..size] + r[size..];
      forall e | e in r && e.id < r[size].id
        ensures e in r[..size]
      {
        var i :| 0 <= i < |r| && r[i] == e;
        assert i < size;
        assert r[..size][i] == e;
      }
    }
  }

  ghost predicate ListedSoFar(vs: seq<Visit>, e: Entry, n: nat)
    requires n <= |vs|
  {
    forall k :: 0 <= k < n ==> e in vs[k].listing
  }

  /** Over the whole walk the ids returned strictly increase, so no row is returned twice; and a row that matches and
      stays in the store is returned as soon as the walk is past its id. */
  lemma {:induction false} WalkPrefix(vs: seq<Visit>, f: TupleFilter, size: nat, n: nat)
    requires IsWalk(vs, f, size) && 0 < n <= |vs|
    ensures Sorted(Returned(vs[..n]))
    ensures forall e :: e in Returned(vs[..n]) && vs[n - 1].token.Some? ==> e.id < vs[n - 1].token.value
    ensures forall e :: ListedSoFar(vs, e, n) && (vs[n - 1].token.Some? ==> e.id < vs[n - 1].token.value) ==>
              e in Returned(vs[..n])
    decreases n
  {
    var last := vs[n - 1];
    PageBounds(last.listing, last.lower, size);
    assert vs[..n][..n - 1] == vs[..n - 1];
    assert Returned(vs[..n]) == Returned(vs[..n - 1]) + last.page;
    if n == 1 {
      assert Returned(vs[..0]) == [];
    } else {
      WalkPrefix(vs, f, size, n - 1);
      assert vs[n - 2].token == Some(last.lower);
      SortedAppend(Returned(vs[..n - 1]), last.page, last.lower);
      forall e | ListedSoFar(vs, e, n) && (last.token.Some? ==> e.id < last.token.value)
        ensures e in Returned(vs[..n])
      {
        assert e in vs[n - 1].listing;
        if e.id < last.lower {
          assert ListedSoFar(vs, e, n - 1);
        }
      }
    }
  }

  lemma {:induction false} SortedAppend(a: seq<Entry>, b: seq<Entry>, bound: nat)
    requires Sorted(a) && Sorted(b)
    requires (forall e :: e in a ==> e.id < bound) && (forall e :: e in b ==> bound <= e.id)
    ensures Sorted(a + b)
  {
  }

  /** A finished walk: the ids strictly increase, so nothing is returned twice; what is returned matched and was stored
      at some visit; and every row that lasted is returned exactly once. */
  lemma {:induction false} WalkReturnsEveryLastingRow(vs: seq<Visit>, f: TupleFilter, size: nat)
    requires IsWalk(vs, f, size) && vs[|vs| - 1].token == None
    ensures Sorted(Returned(vs))
    ensures forall e :: e in Returned(vs) ==>
              exists k :: 0 <= k < |vs| && e.tuple in vs[k].rows && vs[k].rows[e.tuple] == e.id && Matches(f, e.tuple)
    ensures forall e :: Lasting(vs, f, e) ==>
              exists i :: 0 <= i < |Returned(vs)| && Returned(vs)[i] == e &&
                          forall j :: 0 <= j < |Returned(vs)| && j != i ==> Returned(vs)[j].id != e.id
  {
    assert |vs| > 0;
    hide Returned, IsWalk, Lasting, Sorted, Matches;
    WalkPrefix(vs, f, size, |vs|);
    assert vs[..|vs|] == vs;
    var r := Returned(vs);
    forall e | e in r
      ensures exists k :: 0 <= k < |vs| && e.tuple in vs[k].rows && vs[k].rows[e.tuple] == e.id && Matches(f, e.tuple)
    {
      ReturnedWasStored(vs, f, size, e);
    }
    forall e | Lasting(vs, f, e)
      ensures exists i :: 0 <= i < |r| && r[i] == e && forall j :: 0 <= j < |r| && j != i ==> r[j].id != e.id
    {
      LastingIsListed(vs, f, size, e);
      OnceInSorted(r, e);
    }
  }

  lemma {:induction false} OnceInSorted(r: seq<Entry>, e: Entry)
    requires Sorted(r) && e in r
    ensures exists i :: 0 <= i < |r| && r[i] == e && forall j :: 0 <= j < |r| && j != i ==> r[j].id != e.id
  {
    var i :| 0 <= i < |r| && r[i] == e;
  }

  lemma {:induction false} ReturnedWasStored(vs: seq<Visit>, f: TupleFilter, size: nat, e: Entry)
    requires IsWalk(vs, f, size) && e in Returned(vs)
    ensures exists k :: 0 <= k < |vs| && e.tuple in vs[k].rows && vs[k].rows[e.tuple] == e.id && Matches(f, e.tuple)
  {
    ReturnedIsListed(vs, f, size, |vs|);
    assert vs[..|vs|] == vs;
    var k :| 0 <= k < |vs| && e in vs[k].listing;
    assert Entry(e.id, e.tuple) in vs[k].listing;
  }

  lemma {:induction false} LastingIsListed(vs: seq<Visit>, f: TupleFilter, size: nat, e: Entry)
    requires IsWalk(vs, f, size) && Lasting(vs, f, e)
    ensures ListedSoFar(vs, e, |vs|)
  {
    forall k | 0 <= k < |vs|
      ensures e in vs[k].listing
    {
      assert Entry(e.id, e.tuple) in vs[k].listing;
    }
  }

  /** Without writes in between, the pages of a finished walk are the full listing. */
  lemma {:induction false} QuietWalkIsTheListing(vs: seq<Visit>, f: TupleFilter, size: nat)
    requires IsWalk(vs, f, size) && vs[|vs| - 1].token == None
    requires forall k :: 0 <= k < |vs| ==> vs[k].rows == vs[0].rows
    ensures Returned(vs) == vs[0].listing
  {
    WalkReturnsEveryLastingRow(vs, f, size);
    var r := Returned(vs);
    forall t, id
      ensures Entry(id, t) in r <==> t in vs[0].rows && vs[0].rows[t] == id && Matches(f, t)
    {
      if t in vs[0].rows && vs[0].rows[t] == id && Matches(f, t) {
        assert Lasting(vs, f, Entry(id, t));
      }
    }
    ListingIsUnique(r, vs[0].listing, vs[0].rows, f);
  }

  lemma {:induction false} ReturnedIsListed(vs: seq<Visit>, f: TupleFilter, size: nat, n: nat)
    requires IsWalk(vs, f, size) && n <= |vs|
    ensures forall e :: e in Returned(vs[..n]) ==> exists k :: 0 <= k < n && e in vs[k].listing
    decreases n
  {
    if n > 0 {
      ReturnedIsListed(vs, f, size, n - 1);
      assert vs[..n][..n - 1] == vs[..n - 1];
      PageBounds(vs[n - 1].listing, vs[n - 1].lower, size);
    }
  }

  /** There is only one listing. */
  lemma {:induction false} ListingIsUnique(a: seq<Entry>, b: seq<Entry>, rows: map<Tuple, nat>, f: TupleFilter)
    requires IsListing(a, rows, f) && IsListing(b, rows, f)
    ensures a == b
  {
    forall e
      ensures e in a <==> e in b
    {
      assert Entry(e.id, e.tuple) == e;
    }
    SameSortedElements(a, b);
  }

  lemma {:induction false} SameSortedElements(a: seq<Entry>, b: seq<Entry>)
    requires Sorted(a) && Sorted(b) && forall e :: e in a <==> e in b
    ensures a == b
    decreases |a|
  {
    assert |a| > 0 ==> a[0] in b;
    assert |b| > 0 ==> b[0] in a;
    if |a| > 0 {
      forall e
        ensures e in a[1..] <==> e in b[1..]
      {
        assert e in a <==> e == a[0] || e in a[1..];
        assert e in b <==> e == b[0] || e in b[1..];
      }
      SameSortedElements(a[1..], b[1..]);
    }
  }

  // ---------------------------------------------------------------- walks end

  lemma {:induction false} FromSuffix(l: seq<Entry>, lower: nat, i: nat)
    requires Sorted(l) && i < |From(l, lower)|
    ensures From(l, From(l, lower)[i].id) == From(l, lower)[i..]
  {
    var r := From(l, lower);
    FromHolds(l, lower);
    FromIsSorted(l, lower);
    FromHolds(l, r[i].id);
    FromIsSorted(l, r[i].id);
    forall e
      ensures e in From(l, r[i].id) <==> e in r[i..]
    {
      if e in r && e.id >= r[i].id {
        var k :| 0 <= k < |r| && r[k] == e;
        assert r[i..][k - i] == e;
      }
    }
    SameSortedElements(From(l, r[i].id), r[i..]);
  }

  lemma {:induction false} ListingFits(l: seq<Entry>, tuples: set<Tuple>)
    requires forall e :: e in l ==> e.tuple in tuples
    requires forall i, j :: 0 <= i < j < |l| ==> l[i].tuple != l[j].tuple
    ensures |l| <= |tuples|
    decreases |l|
  {
    if l != [] {
      assert l[0] in l;
      ListingFits(l[1..], tuples - {l[0].tuple});
    }
  }

  lemma {:induction false} ListingIsNoLonger(l: seq<Entry>, rows: map<Tuple, nat>, f: TupleFilter)
    requires IsListing(l, rows, f)
    ensures |l| <= |rows.Keys|
  {
    forall e | e in l
      ensures e.tuple in rows && rows[e.tuple] == e.id
    {
      assert Entry(e.id, e.tuple) in l;
    }
    forall i, j | 0 <= i < j < |l|
      ensures l[i].tuple != l[j].tuple
    {
      assert l[i] in l && l[j] in l;
    }
    ListingFits(l, rows.Keys);
  }

  ghost predicate Unchanging(vs: seq<Visit>) {
    forall k :: 0 <= k < |vs| ==> vs[k].rows == vs[0].rows
  }

  lemma {:induction false} SameListing(vs: seq<Visit>, f: TupleFilter, size: nat, k: nat)
    requires IsWalk(vs, f, size) && Unchanging(vs) && k < |vs|
    ensures vs[k].listing == vs[0].listing && Sorted(vs[0].listing)
  {
    ListingIsUnique(vs[k].listing, vs[0].listing, vs[0].rows, f);
  }

  lemma {:induction false} NextPage(v: Visit, lower: nat, size: nat)
    requires Sorted(v.listing) && (v.page, v.token) == Page(v.listing, v.lower, size) && v.token == Some(lower)
    ensures var r := From(v.listing, v.lower); |r| > size && From(v.listing, lower) == r[size..]
  {
    hide Sorted, From;
    FromSuffix(v.listing, v.lower, size);
  }

  /** After `n` pages of an undisturbed walk, `n` times `size` rows have been returned and the rest is still to come. */
  lemma {:induction false} PagesAreFull(vs: seq<Visit>, f: TupleFilter, size: nat, n: nat)
    requires IsWalk(vs, f, size) && Unchanging(vs) && n < |vs|
    ensures var l := vs[0].listing;
            |l| == n * size + |From(l, vs[n].lower)| && (n > 0 ==> From(l, vs[n].lower) != [])
    decreases n
  {
    hide From, Sorted, IsListing;
    var l := vs[0].listing;
    SameListing(vs, f, size, 0);
    if n == 0 {
      FromHolds(l, 0);
      FromIsSorted(l, 0);
      SameSortedElements(From(l, 0), l);
    } else {
      PagesAreFull(vs, f, size, n - 1);
      SameListing(vs, f, size, n - 1);
      NextPage(vs[n - 1], vs[n].lower, size);
    }
  }

  /** With pages of at least one row, an undisturbed walk ends: it has at most as many pages as there are matching
      rows, or one page when there are none. */
  lemma {:induction false} QuietWalksEnd(vs: seq<Visit>, f: TupleFilter, size: nat)
    requires IsWalk(vs, f, size) && Unchanging(vs) && size >= 1
    ensures |vs| == 1 || (|vs| - 1) * size < |vs[0].listing|
    ensures |vs| <= 1 + |vs[0].rows.Keys|
  {
    var n := |vs| - 1;
    PagesAreFull(vs, f, size, n);
    ListingIsNoLonger(vs[0].listing, vs[0].rows, f);
    assert n <= n * size;
  }

  /** With pages of no rows the token repeats, and a walk over a matching row never ends. */
  lemma {:induction false} EmptyPagesNeverEnd(vs: seq<Visit>, f: TupleFilter)
    requires IsWalk(vs, f, 0) && Unchanging(vs) && vs[0].listing != []
    ensures vs[|vs| - 1].token.Some? && vs[|vs| - 1].page == []
  {
    var n := |vs| - 1;
    PagesAreFull(vs, f, 0, n);
    SameListing(vs, f, 0, n);
  }
}
