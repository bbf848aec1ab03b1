/** The remote store seen as a map from collection name to collection, and
    the schema decision `init` makes over it. */
module Collections {
  import opened Records

  datatype DataType = TextType | DateType | IntType

  datatype PropertyDef = PropertyDef(name: string, dataType: DataType)

  /** A collection: its declared properties and its objects in the order the
      store enumerates them. */
  datatype Collection = Collection(properties: seq<PropertyDef>, objects: seq<StoredObject>)

  type Store = map<string, Collection>

  /** The content collection: one object per document or per page. */
  const Documents: string := "Documents"
  /** The metadata collection: one object per document. */
  const DocumentsMeta: string := "DocumentsMeta"

  const DocumentsProperties: seq<PropertyDef> :=
    [PropertyDef("content", TextType), PropertyDef("title", TextType), PropertyDef("url", TextType),
     PropertyDef("postedAt", DateType), PropertyDef("page", IntType)]

  const MetaProperties: seq<PropertyDef> :=
    [PropertyDef("title", TextType), PropertyDef("url", TextType), PropertyDef("postedAt", DateType)]

  /** `client.collections.create`: the store refuses a name it already holds,
      and may reject the request outright (the names in `rejected`). */
  function CreateTransition(s: Store, name: string, properties: seq<PropertyDef>, rejected: set<string>): (r: (Store, Outcome))
    ensures r.1.Pass? <==> name !in s && name !in rejected
    ensures r.1.Pass? ==> r.0 == s[name := Collection(properties, [])]
    ensures r.1.Fail? ==> r.0 == s
    ensures forall c :: c in s ==> c in r.0 && r.0[c] == s[c]
  {
    if name in s then (s, Fail(AlreadyExists))
    else if name in rejected then (s, Fail(Unavailable))
    else (s[name := Collection(properties, [])], Pass)
  }

  /** `init` once connected: the store is asked whether `Documents` exists
      (`answered` is false when that request itself fails); nothing happens when
      it exists; otherwise `Documents` is created and then, if that succeeded,
      `DocumentsMeta`. The first failure is thrown out of `init`. */
  function InitTransition(s: Store, answered: bool, rejected: set<string>): (r: (Store, Outcome))
    ensures forall c :: c in s ==> c in r.0 && r.0[c] == s[c]
    ensures r.0.Keys <= s.Keys + {Documents, DocumentsMeta}
    ensures r.1.Pass? <==> answered && (Documents in s || (DocumentsMeta !in s && {Documents, DocumentsMeta} !! rejected))
  {
    if !answered then (s, Fail(Unavailable))
    else if Documents in s then (s, Pass)
    else
      var (s1, created) := CreateTransition(s, Documents, DocumentsProperties, rejected);
      if created.Fail? then (s1, created)
      else CreateTransition(s1, DocumentsMeta, MetaProperties, rejected)
  }

  /** Only `Documents` is checked: when it exists the store is left as it is,
      whether or not `DocumentsMeta` exists. */
  lemma InitSkipsWhenDocumentsExists(s: Store, rejected: set<string>)
    requires Documents in s
    ensures InitTransition(s, true, rejected) == (s, Pass)
  {
  }

  /** From a store without either collection, a successful `init` creates both,
      empty, with their listed properties. */
  lemma InitCreatesBoth(s: Store, rejected: set<string>)
    requires Documents !in s && DocumentsMeta !in s
    requires Documents !in rejected && DocumentsMeta !in rejected
    ensures InitTransition(s, true, rejected) ==
      (s[Documents := Collection(DocumentsProperties, [])][DocumentsMeta := Collection(MetaProperties, [])], Pass)
  {
  }

  /** `Documents` is created first: if creating `DocumentsMeta` then fails, the
      store is left holding `Documents` alone and the error is thrown. */
  lemma InitCreatesDocumentsFirst(s: Store, rejected: set<string>)
    requires Documents !in s && Documents !in rejected
    requires DocumentsMeta in s || DocumentsMeta in rejected
    ensures InitTransition(s, true, rejected).0 == s[Documents := Collection(DocumentsProperties, [])]
    ensures InitTransition(s, true, rejected).1.Fail?
  {
  }

  /** If the existence check or the creation of `Documents` fails, nothing
      was created and the error is thrown. */
  lemma InitFailsCleanly(s: Store, answered: bool, rejected: set<string>)
    requires !answered || (Documents !in s && Documents in rejected)
    ensures InitTransition(s, answered, rejected) == (s, Fail(Unavailable))
  {
  }

  /** With the same answers from the store, calling `init` a second time
      changes nothing more. Once `Documents` exists after the first call, a
      second call with any answers leaves the store as it is, and succeeds as
      a no-op whenever its existence check is answered. */
  lemma InitIdempotent(s: Store, answered: bool, rejected: set<string>,
                       answered2: bool, rejected2: set<string>)
    ensures InitTransition(InitTransition(s, answered, rejected).0, answered, rejected).0
            == InitTransition(s, answered, rejected).0
    ensures Documents in InitTransition(s, answered, rejected).0 ==>
      InitTransition(InitTransition(s, answered, rejected).0, answered2, rejected2).0
      == InitTransition(s, answered, rejected).0
    ensures Documents in InitTransition(s, answered, rejected).0 && answered2 ==>
      InitTransition(InitTransition(s, answered, rejected).0, answered2, rejected2).1 == Pass
  {
  }

  /** The store after `init` has been called once for each (answered, rejected)
      pair in `calls`, in order. */
  function InitRepeated(s: Store, calls: seq<(bool, set<string>)>): (r: Store)
    ensures forall c :: c in s ==> c in r && r[c] == s[c]
    decreases |calls|
  {
    if calls == [] then s
    else InitRepeated(InitTransition(s, calls[0].0, calls[0].1).0, calls[1..])
  }

  /** Only `Documents` is checked: when a failed second create has left
      `Documents` without `DocumentsMeta`, no sequence of later `init` calls,
      whatever the store answers, changes the store or creates `DocumentsMeta`. */
  lemma {:induction false} InitNeverRepairsMeta(s: Store, calls: seq<(bool, set<string>)>)
    requires Documents in s && DocumentsMeta !in s
    ensures InitRepeated(s, calls) == s
    ensures DocumentsMeta !in InitRepeated(s, calls)
  {
    if calls != [] {
      assert InitTransition(s, calls[0].0, calls[0].1).0 == s;
      InitNeverRepairsMeta(s, calls[1..]);
    }
  }
}
