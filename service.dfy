/** The service object: it holds the connection to the store, which the model
    replaces by the store's state itself. */
module DataService {
  import opened Records
  import opened Collections
  import opened TitleGrouping

  /** What `getAllObjects` returns per object: exactly these three fields. */
  datatype DocumentSummary = DocumentSummary(title: Value, url: Value, postedAt: Value)

  /** The store's fetch over the objects of `Documents`: given the
      collection, the query text and the limit, the hits it returns or an
      error. How the hits are chosen and ordered is not modelled. */
  type Query = (seq<StoredObject>, string, nat) -> Result<seq<StoredObject>>

  const DefaultSearchLimit: nat := 5

  class WeaviateService {
    /** The collections of the remote store, by name. */
    var store: Store

    constructor (initial: Store)
      ensures store == initial
    {
      store := initial;
    }

    /** `client.collections.create(...)`. */
    method CreateCollection(name: string, properties: seq<PropertyDef>, rejected: set<string>) returns (r: Outcome)
      modifies this
      ensures (store, r) == CreateTransition(old(store), name, properties, rejected)
    {
      if name in store {
        r := Fail(AlreadyExists);
      } else if name in rejected {
        r := Fail(Unavailable);
      } else {
        store := store[name := Collection(properties, [])];
        r := Pass;
      }
    }

    /** The schema part of `init`: create `Documents` and `DocumentsMeta`
        unless `Documents` exists already. `answered` is false when the store
        fails to answer the existence check. */
    method Init(answered: bool, rejected: set<string>) returns (r: Outcome)
      modifies this
      ensures (store, r) == InitTransition(old(store), answered, rejected)
      ensures !answered ==> store == old(store) && r == Fail(Unavailable)
      ensures answered && Documents in old(store) ==> store == old(store) && r == Pass
    {
      if !answered {
        return Fail(Unavailable);
      }
      if Documents in store {
        return Pass;
      }
      r := CreateCollection(Documents, DocumentsProperties, rejected);
      if r.Fail? {
        return;
      }
      r := CreateCollection(DocumentsMeta, MetaProperties, rejected);
    }

    /** `addObject(data, className = 'Documents')`: insert one object; a
        failed insert (the store not accepting it, or no such collection) is
        rethrown and leaves the store as it was. */
    method AddObject(accepted: bool, data: StoredObject, className: string := Documents) returns (r: Outcome)
      modifies this
      ensures r.Pass? <==> className in old(store) && accepted
      ensures className !in old(store) ==> r == Fail(NoSuchCollection)
      ensures className in old(store) && !accepted ==> r == Fail(Unavailable)
      ensures r.Pass? ==>
        && className in store
        && store[className].objects == old(store)[className].objects + [data]
        && store[className].properties == old(store)[className].properties
      ensures r.Pass? ==>
        && store.Keys == old(store).Keys
        && forall c :: c in old(store) && c != className ==> store[c] == old(store)[c]
      ensures r.Fail? ==> store == old(store)
    {
      if className !in store {
        return Fail(NoSuchCollection);
      }
      if !accepted {
        return Fail(Unavailable);
      }
      var target := store[className];
      store := store[className := target.(objects := target.objects + [data])];
      r := Pass;
    }

    /** `getAllObjects(className = 'DocumentsMeta')`: walk the collection and
        push the title, url and postedAt of each object. `served(i)` is false
        when the store fails on the `i`-th request of the iteration: requests
        `0` to `|objects| - 1` fetch the objects, and request `|objects|` is
        the one that finds the end, so even an empty collection can fail. The
        error leaves the loop and the partial listing is dropped. */
    method GetAllObjects(served: nat -> bool, className: string := DocumentsMeta)
      returns (r: Result<seq<DocumentSummary>>)
      ensures className !in store ==> r == Err(NoSuchCollection)
      ensures className in store ==>
        (r.Ok? <==> forall i :: 0 <= i <= |store[className].objects| ==> served(i))
      ensures className in store && r.Err? ==> r == Err(Unavailable)
      ensures r.Ok? ==> className in store && |r.value| == |store[className].objects|
      ensures r.Ok? ==> forall i :: 0 <= i < |r.value| ==>
        var item := store[className].objects[i];
        r.value[i] == DocumentSummary(Prop(item, "title"), Prop(item, "url"), Prop(item, "postedAt"))
    {
      if className !in store {
        return Err(NoSuchCollection);
      }
      var items := store[className].objects;
      var documents: seq<DocumentSummary> := [];
      var i := 0;
      while i < |items|
        invariant 0 <= i <= |items|
        invariant forall j :: 0 <= j < i ==> served(j)
        invariant |documents| == i
        invariant forall j :: 0 <= j < i ==>
          documents[j] == DocumentSummary(Prop(items[j], "title"), Prop(items[j], "url"), Prop(items[j], "postedAt"))
      {
        if !served(i) {
          return Err(Unavailable);
        }
        var item := items[i];
        documents := documents + [DocumentSummary(Prop(item, "title"), Prop(item, "url"), Prop(item, "postedAt"))];
        i := i + 1;
      }
      if !served(|items|) {
        return Err(Unavailable);
      }
      return Ok(documents);
    }

    /** `semanticSearch(text, limit = 5)`: query `Documents` and fold the hits
        into groups by title, over a plain `{}` as the source does. A query
        error, or the TypeError the fold raises on an inherited key, is
        rethrown. */
    method SemanticSearch(query: Query, text: string, limit: nat := DefaultSearchLimit) returns (r: Result<Groups>)
      ensures Documents !in store ==> r == Err(NoSuchCollection)
      ensures Documents in store ==>
        match query(store[Documents].objects, text, limit)
        case Err(e) => r == Err(e)
        case Ok(hits) =>
          && (NoInheritedTitle(hits) ==> r == Ok(Group(hits)))
          && (!NoInheritedTitle(hits) ==> r.Err? && r.error.PushIsNotAFunction? && r.error.key in InheritedKeys)
          && (forall i :: FirstInheritedAt(hits, i) ==> r == Err(PushIsNotAFunction(EffectiveTitle(hits[i]))))
      ensures (&& Documents in store
               && query(store[Documents].objects, text, limit).Ok?
               && |query(store[Documents].objects, text, limit).value| <= limit
               && r.Ok?) ==>
        TotalSize(r.value) <= limit
    {
      if Documents !in store {
        return Err(NoSuchCollection);
      }
      var result := query(store[Documents].objects, text, limit);
      match result {
        case Err(e) =>
          r := Err(e);
        case Ok(hits) =>
          GroupAsWrittenFailsOnlyOnInheritedKeys(hits);
          GroupSizesSum(hits);
          forall i | FirstInheritedAt(hits, i)
            ensures GroupAsWritten(hits) == Err(PushIsNotAFunction(EffectiveTitle(hits[i])))
          {
            GroupAsWrittenFailsAtFirstInherited(hits, i);
          }
          r := GroupAsWritten(hits);
      }
    }
  }
}
