/** Restoring a table from a list of documents: each document updates the row with its key, or is inserted. */
module Upsert {
  import opened Common
  import opened Rows

  /** How one table is keyed and written. */
  datatype Ops<!R, !D> = Ops(rowKey: R -> string, docKey: D -> string, update: (R, D) -> R, insert: D -> R)

  /** An update keeps the key and overwrites everything an earlier update wrote, and updating a row just inserted from
      the same document changes nothing. */
  ghost predicate Lawful<R(!new), D(!new)>(ops: Ops<R, D>) {
    && (forall d :: ops.rowKey(ops.insert(d)) == ops.docKey(d))
    && (forall r, d :: ops.rowKey(ops.update(r, d)) == ops.rowKey(r))
    && (forall r, d, e :: ops.docKey(d) == ops.docKey(e) ==> ops.update(ops.update(r, d), e) == ops.update(r, e))
    && (forall d :: ops.update(ops.insert(d), d) == ops.insert(d))
  }

  function One<R, D>(ops: Ops<R, D>, rows: seq<R>, d: D): seq<R> {
    var i := Find(ops.rowKey, rows, ops.docKey(d));
    if i < |rows| then rows[i := ops.update(rows[i], d)] else rows + [ops.insert(d)]
  }

  function All<R, D>(ops: Ops<R, D>, rows: seq<R>, docs: seq<D>): seq<R> {
    if docs == [] then rows else One(ops, All(ops, rows, docs[..|docs| - 1]), docs[|docs| - 1])
  }

  // ---- looking rows up ----

  /** The row a document leaves for its key. */
  function Written<R, D>(ops: Ops<R, D>, row: Option<R>, d: D): R {
    match row case Some(r) => ops.update(r, d) case None => ops.insert(d)
  }

  lemma {:induction false} LookupOne<R(!new), D(!new)>(ops: Ops<R, D>, rows: seq<R>, d: D, key: string)
    requires Lawful(ops)
    ensures Lookup(ops.rowKey, One(ops, rows, d), key) ==
            if key == ops.docKey(d) then Some(Written(ops, Lookup(ops.rowKey, rows, key), d)) else Lookup(ops.rowKey, rows, key)
  {
    var i := Find(ops.rowKey, rows, ops.docKey(d));
    if i < |rows| {
      FindUpdated(ops.rowKey, rows, i, ops.update(rows[i], d), key);
    } else {
      FindAppended(ops.rowKey, rows, ops.insert(d), key);
    }
  }

  // ---- into an empty table ----

  ghost predicate DistinctKeys<D>(docKey: D -> string, docs: seq<D>) {
    forall i, j :: 0 <= i < j < |docs| ==> docKey(docs[i]) != docKey(docs[j])
  }

  function Map<D, R>(insert: D -> R, docs: seq<D>): (rows: seq<R>)
    ensures |rows| == |docs| && forall i :: 0 <= i < |docs| ==> rows[i] == insert(docs[i])
  {
    seq(|docs|, i requires 0 <= i < |docs| => insert(docs[i]))
  }

  /** Documents with distinct keys restored into an empty table become its rows, in order. */
  lemma {:induction false} IntoEmpty<R(!new), D(!new)>(ops: Ops<R, D>, docs: seq<D>)
    requires forall d :: ops.rowKey(ops.insert(d)) == ops.docKey(d)
    requires DistinctKeys(ops.docKey, docs)
    ensures All(ops, [], docs) == Map(ops.insert, docs)
  {
    if docs != [] {
      var init, last := docs[..|docs| - 1], docs[|docs| - 1];
      IntoEmpty(ops, init);
      var rows := Map(ops.insert, init);
      forall i | 0 <= i < |rows| ensures ops.rowKey(rows[i]) != ops.docKey(last) {
        assert rows[i] == ops.insert(docs[i]);
      }
      FindAbsent(ops.rowKey, rows, ops.docKey(last));
    }
  }

  // ---- twice ----

  /** The last document for a key. */
  function LastDoc<D>(docKey: D -> string, docs: seq<D>, key: string): Option<D> {
    if docs == [] then None
    else if docKey(docs[|docs| - 1]) == key then Some(docs[|docs| - 1])
    else LastDoc(docKey, docs[..|docs| - 1], key)
  }

  lemma {:induction false} LastDocKey<D>(docKey: D -> string, docs: seq<D>, key: string)
    ensures LastDoc(docKey, docs, key).Some? ==> docKey(LastDoc(docKey, docs, key).value) == key
  {
    if docs != [] {
      LastDocKey(docKey, docs[..|docs| - 1], key);
    }
  }

  /** After a restore, every key that was in the documents has a row that already agrees with the last of them. */
  lemma {:induction false} RowAgrees<R(!new), D(!new)>(ops: Ops<R, D>, rows: seq<R>, docs: seq<D>, key: string)
    requires Lawful(ops)
    ensures match LastDoc(ops.docKey, docs, key)
            case None => Lookup(ops.rowKey, All(ops, rows, docs), key) == Lookup(ops.rowKey, rows, key)
            case Some(d) =>
              var row := Lookup(ops.rowKey, All(ops, rows, docs), key);
              row.Some? && ops.update(row.value, d) == row.value
  {
    if docs != [] {
      var init, last := docs[..|docs| - 1], docs[|docs| - 1];
      RowAgrees(ops, rows, init, key);
      LookupOne(ops, All(ops, rows, init), last, key);
    }
  }

  /** The first document for a key. */
  function FirstDoc<D>(docKey: D -> string, docs: seq<D>, key: string): Option<D> {
    if docs == [] then None
    else
      match FirstDoc(docKey, docs[..|docs| - 1], key)
      case Some(d) => Some(d)
      case None => if docKey(docs[|docs| - 1]) == key then Some(docs[|docs| - 1]) else None
  }

  lemma {:induction false} FirstIffLast<D>(docKey: D -> string, docs: seq<D>, key: string)
    ensures FirstDoc(docKey, docs, key).Some? <==> LastDoc(docKey, docs, key).Some?
    ensures FirstDoc(docKey, docs, key).Some? ==> docKey(FirstDoc(docKey, docs, key).value) == key
  {
    if docs != [] {
      FirstIffLast(docKey, docs[..|docs| - 1], key);
    }
  }

  /** The row of a key after a restore: the one there was, or the one its first document inserts, written over by its last
      document. */
  lemma {:induction false} RowAfter<R(!new), D(!new)>(ops: Ops<R, D>, rows: seq<R>, docs: seq<D>, key: string)
    requires Lawful(ops)
    ensures match LastDoc(ops.docKey, docs, key)
            case None => Lookup(ops.rowKey, All(ops, rows, docs), key) == Lookup(ops.rowKey, rows, key)
            case Some(d) =>
              && FirstDoc(ops.docKey, docs, key).Some?
              && Lookup(ops.rowKey, All(ops, rows, docs), key) ==
                 match Lookup(ops.rowKey, rows, key)
                 case Some(r) => Some(ops.update(r, d))
                 case None => Some(ops.update(ops.insert(FirstDoc(ops.docKey, docs, key).value), d))
  {
    if docs != [] {
      var init, last := docs[..|docs| - 1], docs[|docs| - 1];
      RowAfter(ops, rows, init, key);
      LookupOne(ops, All(ops, rows, init), last, key);
      FirstIffLast(ops.docKey, init, key);
      LastDocKey(ops.docKey, init, key);
    }
  }

  /** Unique keys stay unique. */
  lemma {:induction false} KeysStayDistinct<R(!new), D(!new)>(ops: Ops<R, D>, rows: seq<R>, docs: seq<D>)
    requires Lawful(ops) && DistinctKeys(ops.rowKey, rows)
    ensures DistinctKeys(ops.rowKey, All(ops, rows, docs))
  {
    if docs != [] {
      KeysStayDistinct(ops, rows, docs[..|docs| - 1]);
      var before, d := All(ops, rows, docs[..|docs| - 1]), docs[|docs| - 1];
      var i, next := Find(ops.rowKey, before, ops.docKey(d)), One(ops, before, d);
      forall j, k | 0 <= j < k < |next| ensures ops.rowKey(next[j]) != ops.rowKey(next[k]) {
        if i == |before| && k == |before| {
          FindPresent(ops.rowKey, before, j);
        } else {
          assert ops.rowKey(before[j]) != ops.rowKey(before[k]);
        }
      }
    }
  }

  ghost predicate AllPresent<R, D>(ops: Ops<R, D>, rows: seq<R>, docs: seq<D>) {
    forall i :: 0 <= i < |docs| ==> Find(ops.rowKey, rows, ops.docKey(docs[i])) < |rows|
  }

  /** Row i of a table after restoring documents whose keys are all there: the first row of a key takes the last
      document for it. */
  function Overwritten<R, D>(ops: Ops<R, D>, rows: seq<R>, docs: seq<D>, i: nat): R
    requires i < |rows|
  {
    var key := ops.rowKey(rows[i]);
    match LastDoc(ops.docKey, docs, key)
    case None => rows[i]
    case Some(d) => if Find(ops.rowKey, rows, key) == i then ops.update(rows[i], d) else rows[i]
  }

  lemma {:induction false} OverwritesInPlace<R(!new), D(!new)>(ops: Ops<R, D>, rows: seq<R>, docs: seq<D>)
    requires Lawful(ops) && AllPresent(ops, rows, docs)
    ensures |All(ops, rows, docs)| == |rows|
    ensures forall i :: 0 <= i < |rows| ==> All(ops, rows, docs)[i] == Overwritten(ops, rows, docs, i)
    ensures forall key :: Find(ops.rowKey, All(ops, rows, docs), key) == Find(ops.rowKey, rows, key)
  {
    if docs != [] {
      var init, last := docs[..|docs| - 1], docs[|docs| - 1];
      forall i | 0 <= i < |init| ensures Find(ops.rowKey, rows, ops.docKey(init[i])) < |rows| {
        assert init[i] == docs[i];
      }
      OverwritesInPlace(ops, rows, init);
      var before, key := All(ops, rows, init), ops.docKey(last);
      var at := Find(ops.rowKey, rows, key);
      assert Find(ops.rowKey, before, key) == at;
      var next := before[at := ops.update(before[at], last)];
      assert All(ops, rows, docs) == next;
      forall k ensures Find(ops.rowKey, next, k) == Find(ops.rowKey, rows, k) {
        FindUpdated(ops.rowKey, before, at, ops.update(before[at], last), k);
      }
      forall i | 0 <= i < |rows| ensures next[i] == Overwritten(ops, rows, docs, i) {
        OverwriteOne(ops, rows, init, last, i);
      }
    }
  }

  lemma {:induction false} OverwriteOne<R(!new), D(!new)>(ops: Ops<R, D>, rows: seq<R>, init: seq<D>, last: D, i: nat)
    requires Lawful(ops) && i < |rows|
    ensures Overwritten(ops, rows, init + [last], i) ==
            if i == Find(ops.rowKey, rows, ops.docKey(last)) then ops.update(Overwritten(ops, rows, init, i), last)
            else Overwritten(ops, rows, init, i)
  {
    var key := ops.rowKey(rows[i]);
    InitOfSnoc(init, last);
    LastDocKey(ops.docKey, init, key);
  }

  lemma {:induction false} PresentAfter<R(!new), D(!new)>(ops: Ops<R, D>, rows: seq<R>, docs: seq<D>)
    requires Lawful(ops)
    ensures AllPresent(ops, All(ops, rows, docs), docs)
  {
    forall i | 0 <= i < |docs| ensures Find(ops.rowKey, All(ops, rows, docs), ops.docKey(docs[i])) < |All(ops, rows, docs)| {
      HasLastDoc(ops.docKey, docs, i);
      RowAgrees(ops, rows, docs, ops.docKey(docs[i]));
    }
  }

  lemma {:induction false} HasLastDoc<D>(docKey: D -> string, docs: seq<D>, i: nat)
    requires i < |docs|
    ensures LastDoc(docKey, docs, docKey(docs[i])).Some?
  {
    if i < |docs| - 1 {
      HasLastDoc(docKey, docs[..|docs| - 1], i);
    }
  }

  /** Restoring the same documents again changes nothing: on any table, and however often a key occurs in them. */
  lemma {:induction false} TwiceIsOnce<R(!new), D(!new)>(ops: Ops<R, D>, rows: seq<R>, docs: seq<D>)
    requires Lawful(ops)
    ensures All(ops, All(ops, rows, docs), docs) == All(ops, rows, docs)
  {
    var once := All(ops, rows, docs);
    PresentAfter(ops, rows, docs);
    OverwritesInPlace(ops, once, docs);
    forall i | 0 <= i < |once| ensures Overwritten(ops, once, docs, i) == once[i] {
      RowAgrees(ops, rows, docs, ops.rowKey(once[i]));
    }
  }

  // ---- seen through a view ----

  /** Writing rows and looking at them through `view` is writing the views. */
  ghost predicate Commutes<R(!new), V(!new), D(!new), E(!new)>(ops: Ops<R, D>, view: R -> V, vops: Ops<V, E>, read: D -> E) {
    && (forall r :: vops.rowKey(view(r)) == ops.rowKey(r))
    && (forall d :: vops.docKey(read(d)) == ops.docKey(d))
    && (forall r, d :: view(ops.update(r, d)) == vops.update(view(r), read(d)))
    && (forall d :: view(ops.insert(d)) == vops.insert(read(d)))
  }

  lemma {:induction false} FindView<R(!new), V(!new)>(rowKey: R -> string, view: R -> V, viewKey: V -> string, rows: seq<R>, key: string)
    requires forall r :: viewKey(view(r)) == rowKey(r)
    ensures Find(viewKey, Map(view, rows), key) == Find(rowKey, rows, key)
  {
    if rows != [] && rowKey(rows[0]) != key {
      assert Map(view, rows)[1..] == Map(view, rows[1..]);
      FindView(rowKey, view, viewKey, rows[1..], key);
    }
  }

  lemma {:induction false} ViewOfAll<R(!new), V(!new), D(!new), E(!new)>(
      ops: Ops<R, D>, view: R -> V, vops: Ops<V, E>, read: D -> E, rows: seq<R>, docs: seq<D>)
    requires Commutes(ops, view, vops, read)
    ensures Map(view, All(ops, rows, docs)) == All(vops, Map(view, rows), Map(read, docs))
  {
    if docs != [] {
      var init, last := docs[..|docs| - 1], docs[|docs| - 1];
      ViewOfAll(ops, view, vops, read, rows, init);
      assert Map(read, docs)[..|docs| - 1] == Map(read, init);
      FindView(ops.rowKey, view, vops.rowKey, All(ops, rows, init), ops.docKey(last));
    }
  }
}
