/** The record store behind every copy of the lifecycle engine: a table of
    records keyed by id, iterated in insertion order. The file-backed `Table`
    of task.py and task_db.py and the REST collections behind task_client.py
    are all this abstract table. */
module Table {
  import opened Rs

  /** `order` lists the ids in insertion order; `rows` maps each id to its
      record. */
  datatype Table<R> = Table(order: seq<int>, rows: map<int, R>) {

    /** Ids are listed once each, and exactly the ids that have a row. */
    ghost predicate Valid() {
      && (forall i, j :: 0 <= i < j < |order| ==> order[i] != order[j])
      && (forall i :: 0 <= i < |order| ==> order[i] in rows)
      && (forall k :: k in rows ==> k in order)
    }

    /** `get(id)`: the record stored under `id`, if any. */
    function Get(id: int): (r: Option<R>)
      ensures r.Some? <==> id in rows
      ensures r.Some? ==> r.value == rows[id]
      ensures Valid() ==> (r.Some? <==> id in order)
    {
      if id in rows then Some(rows[id]) else Null
    }

    /** `records()`: every record, in insertion order. */
    function Records(): (rs: seq<R>)
      requires Valid()
      ensures |rs| == |order|
      ensures forall i :: 0 <= i < |order| ==> order[i] in rows && rs[i] == rows[order[i]]
    {
      seq(|order|, i requires 0 <= i < |order| => rows[order[i]])
    }

    /** `update(record)` / `put(record)`: insert or overwrite the record stored
        under `id`. An existing id keeps its place in the order; a new id goes
        last. No other record changes. */
    function Upsert(id: int, r: R): (t: Table<R>)
      requires Valid()
      ensures t.Valid()
      ensures t.Get(id) == Some(r)
      ensures forall k :: k != id ==> t.Get(k) == Get(k)
      ensures |t.Records()| == |Records()| + (if id in rows then 0 else 1)
      ensures forall i :: 0 <= i < |order| ==>
                t.Records()[i] == (if order[i] == id then r else Records()[i])
      ensures id !in rows ==> t.Records()[|order|] == r
    {
      if id in rows then Table(order, rows[id := r])
      else
        var t := Table(order + [id], rows[id := r]);
        assert forall k :: k in t.rows ==> k in t.order by {
          forall k | k in t.rows ensures k in t.order {
            assert k in t.order <==> k in order || k == id;
          }
        }
        t
    }
  }

  /** The index of the first element of `ss` that satisfies `p`, if any: the
      linear search with early return of `find_task`. */
  function FirstWhere<R>(ss: seq<R>, p: R -> bool): (r: Option<nat>)
    ensures r.Some? ==> r.value < |ss| && p(ss[r.value])
    ensures r.Some? ==> forall j :: 0 <= j < r.value ==> !p(ss[j])
    ensures r.Null? ==> forall j :: 0 <= j < |ss| ==> !p(ss[j])
  {
    if |ss| == 0 then Null
    else if p(ss[0]) then Some(0)
    else match FirstWhere(ss[1..], p)
      case Null => Null
      case Some(i) => Some(i + 1)
  }

  /** The first index whose element satisfies `p` is what `FirstWhere`
      returns. */
  lemma FirstWhereIs<R>(ss: seq<R>, p: R -> bool, k: nat)
    requires k < |ss| && p(ss[k])
    requires forall j :: 0 <= j < k ==> !p(ss[j])
    ensures FirstWhere(ss, p) == Some(k)
  {
  }

  /** The elements of `ss` that satisfy `p`, in their order: a list query
      whose filter the store applies. */
  function Filter<R>(ss: seq<R>, p: R -> bool): (fs: seq<R>)
    ensures |fs| <= |ss|
    ensures forall i :: 0 <= i < |fs| ==> fs[i] in ss && p(fs[i])
    ensures forall i :: 0 <= i < |ss| && p(ss[i]) ==> ss[i] in fs
  {
    if |ss| == 0 then []
    else if p(ss[0]) then [ss[0]] + Filter(ss[1..], p)
    else Filter(ss[1..], p)
  }

  /** Filtering a concatenation filters each part and keeps the parts in
      order; with `FilterSingle` this fixes the result as the subsequence of
      qualifying elements in their original order, repeats included. */
  lemma {:induction false} FilterAppend<R>(a: seq<R>, b: seq<R>, p: R -> bool)
    ensures Filter(a + b, p) == Filter(a, p) + Filter(b, p)
  {
    if |a| == 0 {
      assert a + b == b;
    } else {
      assert (a + b)[0] == a[0] && (a + b)[1..] == a[1..] + b;
      FilterAppend(a[1..], b, p);
    }
  }

  /** A single element is kept exactly when it qualifies. */
  lemma FilterSingle<R>(x: R, p: R -> bool)
    ensures Filter([x], p) == (if p(x) then [x] else [])
  {
  }

  /** The filtered list is empty exactly when no element qualifies, and
      otherwise starts with the first element that qualifies: taking element
      0 of a filtered list is the same linear search. */
  lemma {:induction false} FilterHead<R>(ss: seq<R>, p: R -> bool)
    ensures Filter(ss, p) == [] <==> FirstWhere(ss, p).Null?
    ensures FirstWhere(ss, p).Some? ==> Filter(ss, p)[0] == ss[FirstWhere(ss, p).value]
  {
    if |ss| > 0 && !p(ss[0]) {
      FilterHead(ss[1..], p);
    }
  }
}
