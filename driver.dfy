/**
  The document store as the handlers use it: a collection is a sequence of documents in
  natural (insertion) order, and a filter is a predicate on one document. `FindOne`,
  `UpdateOne`, `DeleteOne` and `Find` are the driver calls of the same names; the "one"
  operations act on the first document the filter matches, and report nothing about whether
  one matched.
*/
module Driver {
  import opened Wrappers

  /** The position of the first document the filter matches. */
  function IndexOf<T>(docs: seq<T>, filter: T -> bool): (r: Option<nat>)
    ensures r.Some? ==> r.value < |docs| && filter(docs[r.value])
    ensures r.Some? ==> forall j :: 0 <= j < r.value ==> !filter(docs[j])
    ensures r.None? <==> forall j :: 0 <= j < |docs| ==> !filter(docs[j])
  {
    if docs == [] then None
    else if filter(docs[0]) then Some(0)
    else match IndexOf(docs[1..], filter)
      case None => None
      case Some(k) => Some(k + 1)
  }

  /** True when some document matches the filter. */
  predicate Exists<T>(docs: seq<T>, filter: T -> bool) {
    exists j :: 0 <= j < |docs| && filter(docs[j])
  }

  /** `Collection::find_one`: the first match, if any. */
  function FindOne<T>(docs: seq<T>, filter: T -> bool): (r: Option<T>)
    ensures r.Some? <==> Exists(docs, filter)
    ensures r.Some? ==> filter(r.value) && r.value in docs
    ensures r.Some? ==> r == Some(docs[IndexOf(docs, filter).value])
  {
    match IndexOf(docs, filter)
    case None => None
    case Some(i) => Some(docs[i])
  }

  /** `Collection::update_one`: applies the `$set` to the first match only. */
  function UpdateOne<T>(docs: seq<T>, filter: T -> bool, update: T -> T): (r: seq<T>)
    ensures |r| == |docs|
    ensures IndexOf(docs, filter).None? ==> r == docs
    ensures IndexOf(docs, filter).Some? ==>
      var i := IndexOf(docs, filter).value; r == docs[i := update(docs[i])]
  {
    if docs == [] then []
    else if filter(docs[0]) then [update(docs[0])] + docs[1..]
    else [docs[0]] + UpdateOne(docs[1..], filter, update)
  }

  /** `Collection::delete_one`: removes the first match only. */
  function DeleteOne<T>(docs: seq<T>, filter: T -> bool): (r: seq<T>)
    ensures IndexOf(docs, filter).None? ==> r == docs
    ensures IndexOf(docs, filter).Some? ==>
      var i := IndexOf(docs, filter).value; r == docs[..i] + docs[i + 1..]
  {
    if docs == [] then []
    else if filter(docs[0]) then docs[1..]
    else [docs[0]] + DeleteOne(docs[1..], filter)
  }

  /** `Collection::find`: the matching documents, in natural order. */
  function Find<T>(docs: seq<T>, filter: T -> bool): (r: seq<T>)
    ensures |r| <= |docs|
    ensures forall j :: 0 <= j < |r| ==> filter(r[j]) && r[j] in docs
    ensures forall j :: 0 <= j < |docs| && filter(docs[j]) ==> docs[j] in r
  {
    if docs == [] then []
    else if filter(docs[0]) then [docs[0]] + Find(docs[1..], filter)
    else Find(docs[1..], filter)
  }

  // ----- consequences used by the handlers' contracts -----

  /** Deleting removes exactly one document when one matches, and none otherwise. */
  lemma DeleteOneCount<T>(docs: seq<T>, filter: T -> bool)
    ensures |DeleteOne(docs, filter)| == if Exists(docs, filter) then |docs| - 1 else |docs|
    ensures multiset(DeleteOne(docs, filter)) <= multiset(docs)
  {
    var r := DeleteOne(docs, filter);
    match IndexOf(docs, filter)
    case None =>
    case Some(i) =>
      assert docs == docs[..i] + [docs[i]] + docs[i + 1..];
      assert multiset(docs) == multiset(docs[..i]) + multiset{docs[i]} + multiset(docs[i + 1..]);
  }

  /** An update whose `$set` keeps the filter true can be found again: it is still the first match. */
  lemma FindOneAfterUpdateOne<T>(docs: seq<T>, filter: T -> bool, update: T -> T)
    requires forall x :: filter(x) ==> filter(update(x))
    ensures FindOne(UpdateOne(docs, filter, update), filter) ==
      match FindOne(docs, filter)
      case None => None
      case Some(d) => Some(update(d))
  {
    var r := UpdateOne(docs, filter, update);
    match IndexOf(docs, filter)
    case None =>
    case Some(i) =>
      assert r[i] == update(docs[i]);
      assert forall j :: 0 <= j < i ==> r[j] == docs[j];
      assert IndexOf(r, filter) == Some(i);
  }

  /** `Find` distributes over appending: a document inserted last is found last. */
  lemma FindAppend<T>(a: seq<T>, b: seq<T>, filter: T -> bool)
    ensures Find(a + b, filter) == Find(a, filter) + Find(b, filter)
  {
    if a == [] {
      assert a + b == b;
    } else {
      assert (a + b)[0] == a[0];
      assert (a + b)[1..] == a[1..] + b;
      FindAppend(a[1..], b, filter);
    }
  }
}
