/** The fold at the end of `semanticSearch`: the hits the store's fetch returns are
    partitioned by title into groups. The result is a map; the order in which
    a JavaScript object enumerates its keys is not modelled. */
module TitleGrouping {
  import opened Records

  type Groups = map<string, seq<StoredObject>>

  /** The key used for an object whose title is falsy. */
  const Unknown: string := "unknown"

  /** `chunk.properties?.title || "unknown"`, as the key it becomes. */
  function EffectiveTitle(o: StoredObject): (t: string)
    ensures t != ""
    ensures !Truthy(Prop(o, "title")) ==> t == Unknown
    ensures Truthy(Prop(o, "title")) ==> t == PropertyKey(Prop(o, "title"))
    ensures Prop(o, "title").Text? && Prop(o, "title").s != "" ==> t == Prop(o, "title").s
  {
    var title := Prop(o, "title");
    if Truthy(title) then PropertyKey(title) else Unknown
  }

  /** One step of the fold: create the group when its first member arrives,
      then push the object onto it. */
  function AddToGroup(g: Groups, o: StoredObject): (r: Groups)
    ensures r.Keys == g.Keys + {EffectiveTitle(o)}
    ensures forall k :: k in g && k != EffectiveTitle(o) ==> r[k] == g[k]
    ensures var t := EffectiveTitle(o);
      && |r[t]| > 0 && r[t][|r[t]| - 1] == o
      && r[t][..|r[t]| - 1] == (if t in g then g[t] else [])
  {
    var t := EffectiveTitle(o);
    g[t := (if t in g then g[t] else []) + [o]]
  }

  /** `hits.reduce(step, {})`: a left fold, written as the step applied to the
      fold of all but the last hit. */
  function Group(hits: seq<StoredObject>): (g: Groups)
    ensures forall k :: k in g ==> |g[k]| > 0
    ensures forall k, j :: k in g && 0 <= j < |g[k]| ==> EffectiveTitle(g[k][j]) == k
  {
    if hits == [] then map[]
    else
      var r := AddToGroup(Group(hits[..|hits| - 1]), hits[|hits| - 1]);
      var t := EffectiveTitle(hits[|hits| - 1]);
      assert r[t] == r[t][..|r[t]| - 1] + [r[t][|r[t]| - 1]];
      r
  }

  // ---------------------------------------------------------------------------
  // The reference definitions the fold is proved against.

  /** The hits whose effective title is `k`, in the order the fetch returned them. */
  function Members(hits: seq<StoredObject>, k: string): (sel: seq<StoredObject>)
  {
    if hits == [] then []
    else if EffectiveTitle(hits[0]) == k then [hits[0]] + Members(hits[1..], k)
    else Members(hits[1..], k)
  }

  /** The effective titles of the hits. */
  ghost function TitlesOf(hits: seq<StoredObject>): (titles: set<string>)
  {
    set i | 0 <= i < |hits| :: EffectiveTitle(hits[i])
  }

  /** Sum of the group sizes. */
  ghost function TotalSize(g: Groups): (total: nat)
    decreases |g|
  {
    if g == map[] then 0
    else
      var k :| k in g;
      assert |g - {k}| == |g| - 1 by { assert (g - {k}).Keys == g.Keys - {k}; }
      |g[k]| + TotalSize(g - {k})
  }

  /** `sel` is the subsequence of `hits` picked out by the strictly increasing
      indices `idx`, and `idx` holds exactly the positions whose title is `k`. */
  ghost predicate OrderedSelection(hits: seq<StoredObject>, k: string, sel: seq<StoredObject>, idx: seq<nat>)
  {
    && |idx| == |sel|
    && (forall a, b :: 0 <= a < b < |idx| ==> idx[a] < idx[b])
    && (forall j :: 0 <= j < |idx| ==> idx[j] < |hits| && hits[idx[j]] == sel[j])
    && (forall i :: 0 <= i < |hits| ==> (EffectiveTitle(hits[i]) == k <==> i in idx))
  }

  // ---------------------------------------------------------------------------
  // Lemmas about the reference definitions.

  lemma {:induction false} MembersSnoc(s: seq<StoredObject>, x: StoredObject, k: string)
    ensures Members(s + [x], k) == Members(s, k) + (if EffectiveTitle(x) == k then [x] else [])
  {
    if s == [] {
      assert s + [x] == [x];
    } else {
      assert (s + [x])[0] == s[0];
      assert (s + [x])[1..] == s[1..] + [x];
      MembersSnoc(s[1..], x, k);
      if EffectiveTitle(s[0]) == k {
        assert Members(s + [x], k) == [s[0]] + Members(s[1..] + [x], k);
      } else {
        assert Members(s + [x], k) == Members(s[1..] + [x], k);
      }
    }
  }

  lemma TitlesSnoc(s: seq<StoredObject>, x: StoredObject)
    ensures TitlesOf(s + [x]) == TitlesOf(s) + {EffectiveTitle(x)}
  {
    var s' := s + [x];
    forall t | t in TitlesOf(s') ensures t in TitlesOf(s) + {EffectiveTitle(x)} {
      var i :| 0 <= i < |s'| && EffectiveTitle(s'[i]) == t;
      if i < |s| { assert s'[i] == s[i]; }
    }
    forall t | t in TitlesOf(s) + {EffectiveTitle(x)} ensures t in TitlesOf(s') {
      if t in TitlesOf(s) {
        var i :| 0 <= i < |s| && EffectiveTitle(s[i]) == t;
        assert s'[i] == s[i];
      } else {
        assert s'[|s|] == x;
      }
    }
  }

  function Shifted(idx: seq<nat>): (r: seq<nat>)
    ensures |r| == |idx|
    ensures forall j :: 0 <= j < |idx| ==> r[j] == idx[j] + 1
  {
    seq(|idx|, j requires 0 <= j < |idx| => idx[j] + 1)
  }

  lemma ShiftedMembership(idx: seq<nat>, i: nat)
    ensures i in Shifted(idx) <==> i > 0 && i - 1 in idx
  {
    var r := Shifted(idx);
    if i > 0 && i - 1 in idx {
      var j :| 0 <= j < |idx| && idx[j] == i - 1;
      assert r[j] == i;
    }
    if i in r {
      var j :| 0 <= j < |r| && r[j] == i;
      assert idx[j] == i - 1;
    }
  }

  /** What an ordered selection from `hits[1..]` becomes once every index is
      moved up by one: it selects from `hits` at positions above 0, exactly the
      positions above 0 whose title is `k`. */
  ghost predicate ShiftedSelection(hits: seq<StoredObject>, k: string, sel: seq<StoredObject>, idx: seq<nat>)
  {
    && |idx| == |sel|
    && (forall a, b :: 0 <= a < b < |idx| ==> idx[a] < idx[b])
    && (forall j :: 0 <= j < |idx| ==> 0 < idx[j] < |hits| && hits[idx[j]] == sel[j])
    && (forall i :: 0 < i < |hits| ==> (EffectiveTitle(hits[i]) == k <==> i in idx))
    && 0 !in idx
  }

  lemma ShiftSelection(hits: seq<StoredObject>, k: string, sel: seq<StoredObject>, rest: seq<nat>)
    requires |hits| > 0
    requires OrderedSelection(hits[1..], k, sel, rest)
    ensures ShiftedSelection(hits, k, sel, Shifted(rest))
  {
    var shifted := Shifted(rest);
    forall j | 0 <= j < |shifted| ensures 0 < shifted[j] < |hits| && hits[shifted[j]] == sel[j] {
      assert hits[shifted[j]] == hits[1..][rest[j]];
    }
    forall i | 0 <= i < |hits| ensures (i > 0 ==> (EffectiveTitle(hits[i]) == k <==> i in shifted)) && (i == 0 ==> i !in shifted) {
      ShiftedMembership(rest, i);
      if i > 0 {
        assert hits[i] == hits[1..][i - 1];
      }
    }
  }

  lemma ConsIncreasing(idx: seq<nat>)
    requires forall a, b :: 0 <= a < b < |idx| ==> idx[a] < idx[b]
    requires 0 !in idx
    ensures forall a, b :: 0 <= a < b < |[0] + idx| ==> ([0] + idx)[a] < ([0] + idx)[b]
  {
    var idx' := [0] + idx;
    forall a, b | 0 <= a < b < |idx'| ensures idx'[a] < idx'[b] {
      assert idx'[b] == idx[b - 1];
      if a > 0 { assert idx'[a] == idx[a - 1]; }
    }
  }

  /** The first hit is titled `k`: it joins the front of the selection. */
  lemma SelectFirst(hits: seq<StoredObject>, k: string, sel: seq<StoredObject>, idx: seq<nat>)
    requires |hits| > 0 && EffectiveTitle(hits[0]) == k
    requires ShiftedSelection(hits, k, sel, idx)
    ensures OrderedSelection(hits, k, [hits[0]] + sel, [0] + idx)
  {
    var idx', sel' := [0] + idx, [hits[0]] + sel;
    ConsIncreasing(idx);
    forall j | 0 <= j < |idx'| ensures idx'[j] < |hits| && hits[idx'[j]] == sel'[j] {
      if j > 0 { assert idx'[j] == idx[j - 1] && sel'[j] == sel[j - 1]; }
    }
    forall i | 0 <= i < |hits| ensures EffectiveTitle(hits[i]) == k <==> i in idx' {
      if i > 0 { assert i in idx' <==> i in idx; }
    }
  }

  /** The first hit is titled otherwise: the selection is unchanged. */
  lemma SkipFirst(hits: seq<StoredObject>, k: string, sel: seq<StoredObject>, idx: seq<nat>)
    requires |hits| > 0 && EffectiveTitle(hits[0]) != k
    requires ShiftedSelection(hits, k, sel, idx)
    ensures OrderedSelection(hits, k, sel, idx)
  {
  }

  /** Members picks out, in order, exactly the hits titled `k`. */
  lemma {:induction false} MembersIsOrderedSelection(hits: seq<StoredObject>, k: string) returns (idx: seq<nat>)
    ensures OrderedSelection(hits, k, Members(hits, k), idx)
  {
    if hits == [] {
      idx := [];
    } else {
      var rest := MembersIsOrderedSelection(hits[1..], k);
      ShiftSelection(hits, k, Members(hits[1..], k), rest);
      if EffectiveTitle(hits[0]) == k {
        SelectFirst(hits, k, Members(hits[1..], k), Shifted(rest));
        idx := [0] + Shifted(rest);
      } else {
        SkipFirst(hits, k, Members(hits[1..], k), Shifted(rest));
        idx := Shifted(rest);
      }
    }
  }

  lemma {:induction false} TotalSizeRemove(g: Groups, k: string)
    requires k in g
    ensures TotalSize(g) == |g[k]| + TotalSize(g - {k})
    decreases |g|
  {
    var k' :| k' in g && TotalSize(g) == |g[k']| + TotalSize(g - {k'});
    if k' != k {
      assert (g - {k}).Keys == g.Keys - {k};
      assert (g - {k'}).Keys == g.Keys - {k'};
      TotalSizeRemove(g - {k'}, k);
      TotalSizeRemove(g - {k}, k');
      assert g - {k'} - {k} == g - {k} - {k'};
    }
  }

  lemma TotalSizeAdd(g: Groups, o: StoredObject)
    ensures TotalSize(AddToGroup(g, o)) == TotalSize(g) + 1
  {
    var t := EffectiveTitle(o);
    var g' := AddToGroup(g, o);
    TotalSizeRemove(g', t);
    assert g' - {t} == g - {t};
    if t in g {
      TotalSizeRemove(g, t);
    } else {
      assert g - {t} == g;
    }
  }

  // ---------------------------------------------------------------------------
  // What the fold computes.

  /** The fold agrees with the reference: its keys are the effective titles of
      the hits, and the group under each key is Members under that key. */
  lemma {:induction false} GroupIsMembers(hits: seq<StoredObject>)
    ensures Group(hits).Keys == TitlesOf(hits)
    ensures forall k :: k in Group(hits) ==> Group(hits)[k] == Members(hits, k)
    ensures forall k :: k !in Group(hits) ==> Members(hits, k) == []
  {
    if hits != [] {
      var init, last := hits[..|hits| - 1], hits[|hits| - 1];
      assert hits == init + [last];
      GroupIsMembers(init);
      GroupKeysStep(init, last);
      forall k
        ensures k in Group(hits) ==> Group(hits)[k] == Members(hits, k)
        ensures k !in Group(hits) ==> Members(hits, k) == []
      {
        GroupMembersStep(init, last, k);
      }
    }
  }

  /** Appending a hit adds its title to both the fold's keys and TitlesOf. */
  lemma GroupKeysStep(init: seq<StoredObject>, last: StoredObject)
    requires Group(init).Keys == TitlesOf(init)
    ensures Group(init + [last]).Keys == TitlesOf(init + [last])
  {
    var hits := init + [last];
    assert hits[..|hits| - 1] == init;
    TitlesSnoc(init, last);
  }

  /** Appending a hit keeps the group under `k` equal to Members under `k`. */
  lemma GroupMembersStep(init: seq<StoredObject>, last: StoredObject, k: string)
    requires k in Group(init) ==> Group(init)[k] == Members(init, k)
    requires k !in Group(init) ==> Members(init, k) == []
    ensures k in Group(init + [last]) ==> Group(init + [last])[k] == Members(init + [last], k)
    ensures k !in Group(init + [last]) ==> Members(init + [last], k) == []
  {
    var hits := init + [last];
    assert hits[..|hits| - 1] == init;
    MembersSnoc(init, last, k);
  }

  /** Within a group the hits keep the order the fetch returned them in: the group `k` is the
      subsequence of `hits` at increasing positions, and those positions are
      exactly the ones whose title is `k`. */
  lemma GroupPreservesOrder(hits: seq<StoredObject>, k: string) returns (idx: seq<nat>)
    requires k in Group(hits)
    ensures OrderedSelection(hits, k, Group(hits)[k], idx)
  {
    GroupIsMembers(hits);
    idx := MembersIsOrderedSelection(hits, k);
  }

  /** Every hit lands in the group of its own title and in no other group. */
  lemma GroupPlacesEachHitOnce(hits: seq<StoredObject>, i: nat)
    requires i < |hits|
    ensures EffectiveTitle(hits[i]) in Group(hits)
    ensures hits[i] in Group(hits)[EffectiveTitle(hits[i])]
    ensures forall k :: k in Group(hits) && k != EffectiveTitle(hits[i]) ==> hits[i] !in Group(hits)[k]
  {
    GroupIsMembers(hits);
    var t := EffectiveTitle(hits[i]);
    assert t in TitlesOf(hits);
    var idx := MembersIsOrderedSelection(hits, t);
    assert i in idx;
    var j :| 0 <= j < |idx| && idx[j] == i;
    assert Group(hits)[t][j] == hits[i];
  }

  /** The group sizes add up to the number of hits. */
  lemma {:induction false} GroupSizesSum(hits: seq<StoredObject>)
    ensures TotalSize(Group(hits)) == |hits|
  {
    if hits != [] {
      GroupSizesSum(hits[..|hits| - 1]);
      TotalSizeAdd(Group(hits[..|hits| - 1]), hits[|hits| - 1]);
    }
  }

  // ---------------------------------------------------------------------------
  // The fold as the source writes it, against a plain `{}` accumulator.

  /** The members of `Object.prototype` an ordinary object inherits. Reading
      `groups[k]` for one of these keys yields that inherited member, which is
      truthy, so no group is created and `.push` is not a function. */
  const InheritedKeys: set<string> :=
    {"constructor", "__proto__", "hasOwnProperty", "isPrototypeOf",
     "propertyIsEnumerable", "toLocaleString", "toString", "valueOf",
     "__defineGetter__", "__defineSetter__", "__lookupGetter__", "__lookupSetter__"}

  /** The fold with JavaScript object semantics: a key that is neither an own
      group nor absent (an inherited member) raises a TypeError, which
      `semanticSearch` logs and rethrows. */
  function GroupAsWritten(hits: seq<StoredObject>): (r: Result<Groups>)
    ensures r.Ok? ==> r.value.Keys !! InheritedKeys
    ensures r.Err? ==> r.error.PushIsNotAFunction? && r.error.key in InheritedKeys
  {
    if hits == [] then Ok(map[])
    else
      match GroupAsWritten(hits[..|hits| - 1])
      case Err(e) => Err(e)
      case Ok(groups) =>
        var last := hits[|hits| - 1];
        var t := EffectiveTitle(last);
        if t in groups then Ok(groups[t := groups[t] + [last]])
        else if t in InheritedKeys then Err(PushIsNotAFunction(t))
        else Ok(groups[t := [last]])
  }

  /** No hit has an inherited key as its title. */
  ghost predicate NoInheritedTitle(hits: seq<StoredObject>)
  {
    forall i :: 0 <= i < |hits| ==> EffectiveTitle(hits[i]) !in InheritedKeys
  }

  lemma NoInheritedTitleSnoc(s: seq<StoredObject>, x: StoredObject)
    ensures NoInheritedTitle(s + [x]) <==> NoInheritedTitle(s) && EffectiveTitle(x) !in InheritedKeys
  {
    var s' := s + [x];
    assert s'[|s|] == x;
    assert forall i :: 0 <= i < |s| ==> s'[i] == s[i];
  }

  /** One step of the fold as written, from a state that agrees with Group. */
  lemma GroupAsWrittenStep(init: seq<StoredObject>, last: StoredObject)
    requires GroupAsWritten(init) == Ok(Group(init))
    ensures var t := EffectiveTitle(last);
      GroupAsWritten(init + [last])
      == if t !in Group(init) && t in InheritedKeys then Err(PushIsNotAFunction(t))
         else Ok(Group(init + [last]))
  {
    var hits := init + [last];
    assert hits[..|hits| - 1] == init;
    assert hits[|hits| - 1] == last;
    assert [] + [last] == [last];
  }

  /** The fold as written succeeds exactly when no title is an inherited key,
      and then it agrees with Group. */
  lemma {:induction false} GroupAsWrittenFailsOnlyOnInheritedKeys(hits: seq<StoredObject>)
    ensures GroupAsWritten(hits).Ok? <==> NoInheritedTitle(hits)
    ensures GroupAsWritten(hits).Ok? ==> GroupAsWritten(hits).value == Group(hits)
  {
    if hits != [] {
      var init, last := hits[..|hits| - 1], hits[|hits| - 1];
      assert hits == init + [last];
      NoInheritedTitleSnoc(init, last);
      GroupAsWrittenFailsOnlyOnInheritedKeys(init);
      if GroupAsWritten(init).Ok? {
        GroupAsWrittenStep(init, last);
      }
    }
  }

  /** Position `i` holds the first hit whose title is an inherited key. */
  ghost predicate FirstInheritedAt(hits: seq<StoredObject>, i: int)
  {
    && 0 <= i < |hits|
    && EffectiveTitle(hits[i]) in InheritedKeys
    && NoInheritedTitle(hits[..i])
  }

  /** The fold as written throws on the first hit whose title is an inherited
      key, naming that key; later hits are never reached. */
  lemma {:induction false} GroupAsWrittenFailsAtFirstInherited(hits: seq<StoredObject>, i: int)
    requires FirstInheritedAt(hits, i)
    ensures GroupAsWritten(hits) == Err(PushIsNotAFunction(EffectiveTitle(hits[i])))
  {
    var init, last := hits[..|hits| - 1], hits[|hits| - 1];
    assert hits == init + [last];
    if i == |hits| - 1 {
      assert init == hits[..i];
      GroupAsWrittenFailsOnlyOnInheritedKeys(init);
      GroupAsWrittenStep(init, last);
    } else {
      assert init[..i] == hits[..i];
      GroupAsWrittenFailsAtFirstInherited(init, i);
    }
  }

  /** A single hit titled "constructor": the fold as written throws, while the
      intended grouping puts the hit in a group of its own. */
  lemma ConstructorTitleThrows()
    ensures var hit := StoredObject(map["title" := Text("constructor")]);
      && GroupAsWritten([hit]) == Err(PushIsNotAFunction("constructor"))
      && Group([hit]) == map["constructor" := [hit]]
  {
    var hit := StoredObject(map["title" := Text("constructor")]);
    assert [hit][..0] == [];
    assert EffectiveTitle(hit) == "constructor";
    assert [] + [hit] == [hit];
    assert AddToGroup(map[], hit) == map["constructor" := [hit]];
  }
}
