/** Planning and carrying out, again and again, brings both sides together and loses no version. */
module Convergence {
  import opened Common
  import opened Paths
  import opened SyncTypes
  import opened Planner
  import opened PlanSafety
  import opened PlanDiscipline
  import opened SyncRounds

  // ------------------------------------------------------------------- one action's effect

  /** A file's action, decided as the world stands, with fresh choices. */
  ghost predicate Due(w: World, a: Action, c: Choice) {
    && Ok(w) && !a.MoveLocal? && !a.MoveRemote? && Answer(w, a.rel) == Some(a) && Fresh(w, a.rel, c)
  }

  lemma {:induction false} UnderAFolder(w: World, top: Rel, key: Rel)
    requires Ok(w) && Known(w, key) && top != [] && StrictlyInside(top, key)
    ensures FolderInSync(w, top)
    decreases |key|
  {
    assert PathOk(w, key);
    assert key[..|key|] == key && |top| < |key|;
    if top != Parent(key) { UnderAFolder(w, top, Parent(key)); }
  }

  lemma NotAFolder(w: World, a: Action, c: Choice)
    requires Due(w, a, c)
    ensures Known(w, a.rel) && FileAt(w, a.rel) && !FolderInSync(w, a.rel)
  {
    assert PathOk(w, a.rel);
  }

  /** Only the path itself changes, and the free name if a copy is set aside. */
  lemma OthersKeep(w: World, a: Action, c: Choice, key: Rel)
    requires Due(w, a, c) && key != a.rel && (a.ConflictCopy? ==> key != c.copy)
    ensures SameCell(w, Perform(w, a, c), key)
  {
    NotAFolder(w, a, c);
    if (a.TrashLocal? || a.TrashRemote?) && key in w.base && Inside(a.rel, key) {
      UnderAFolder(w, a.rel, key);
    }
  }

  lemma FolderKeeps(w: World, a: Action, c: Choice, key: Rel)
    requires Due(w, a, c) && FolderInSync(w, key)
    ensures FolderInSync(Perform(w, a, c), key)
  {
    NotAFolder(w, a, c);
    assert key != c.copy;
    OthersKeep(w, a, c, key);
    hide Perform;
  }

  /** The path itself afterwards: settled, or waiting only for the download after its copy was set aside. */
  lemma OwnPath(w: World, a: Action, c: Choice)
    requires Due(w, a, c)
    ensures Rank(Perform(w, a, c), a.rel) + 1 == Rank(w, a.rel)
    ensures FileAt(Perform(w, a, c), a.rel)
    ensures a.ConflictCopy? ==> Awaits(Perform(w, a, c), a.rel) || a.rel !in w.base
  {
    NotAFolder(w, a, c);
    assert PathOk(w, a.rel);
  }

  lemma CopyPath(w: World, a: Action, c: Choice)
    requires Due(w, a, c) && a.ConflictCopy?
    ensures var w' := Perform(w, a, c);
            && Rank(w', c.copy) == 1 && FileAt(w', c.copy) && ChangedHere(w', c.copy)
            && c.copy in w'.local && w'.local[c.copy] == a.local.(rel := c.copy)
            && c.copy !in w'.base && c.copy !in w'.remote
  {
    NotAFolder(w, a, c);
  }

  lemma PathStaysOk(w: World, a: Action, c: Choice, key: Rel)
    requires Due(w, a, c)
    ensures PathOk(Perform(w, a, c), key)
  {
    NotAFolder(w, a, c);
    assert PathOk(w, key) && PathOk(w, a.rel);
    if |key| > 1 && FolderInSync(w, Parent(key)) { FolderKeeps(w, a, c, Parent(key)); }
    if key == a.rel {
      OwnPath(w, a, c);
    } else if a.ConflictCopy? && key == c.copy {
      CopyPath(w, a, c);
      assert |key| == |a.rel|;
    } else {
      OthersKeep(w, a, c, key);
      if FolderInSync(w, key) { FolderKeeps(w, a, c, key); }
    }
  }

  lemma IdStaysOk(w: World, a: Action, c: Choice, p: Rel, q: Rel)
    requires Due(w, a, c)
    ensures IdOk(Perform(w, a, c), p, q)
  {
    assert IdOk(w, p, q) && IdOk(w, a.rel, q) && IdOk(w, p, a.rel);
  }

  lemma InoStaysOk(w: World, a: Action, c: Choice, p: Rel, q: Rel)
    requires Due(w, a, c)
    ensures InoOk(Perform(w, a, c), p, q)
  {
    assert InoOk(w, p, q) && InoOk(w, a.rel, q) && InoOk(w, p, a.rel) && InoOk(w, a.rel, p) && PathOk(w, a.rel);
    NotAFolder(w, a, c);
    OwnPath(w, a, c);
    if q != a.rel && (a.ConflictCopy? ==> q != c.copy) { OthersKeep(w, a, c, q); }
    if p != a.rel && (a.ConflictCopy? ==> p != c.copy) { OthersKeep(w, a, c, p); }
  }

  lemma ActionKeepsOk(w: World, a: Action, c: Choice)
    requires Due(w, a, c)
    ensures Ok(Perform(w, a, c))
  {
    forall key ensures PathOk(Perform(w, a, c), key) { PathStaysOk(w, a, c, key); }
    forall p, q ensures IdOk(Perform(w, a, c), p, q) { IdStaysOk(w, a, c, p, q); }
    forall p, q ensures InoOk(Perform(w, a, c), p, q) { InoStaysOk(w, a, c, p, q); }
  }

  // ---------------------------------------------------------------------- no version lost

  /** The contents are a change not yet on the other side, or are on both. */
  predicate CarriedAt(w: World, sum: string, key: Rel) {
    || (ChangedHere(w, key) && w.local[key].kind == File && w.local[key].checksum == Some(sum))
    || (ChangedThere(w, key) && w.remote[key].kind == File && w.remote[key].checksum == Some(sum))
    || HeldAt(w, sum, key)
  }

  predicate HeldAt(w: World, sum: string, key: Rel) {
    key in w.local && key in w.remote && w.local[key].checksum == Some(sum) == w.remote[key].checksum
  }

  ghost predicate Carried(w: World, sum: string) {
    exists key :: CarriedAt(w, sum, key)
  }

  lemma ActionCarries(w: World, a: Action, c: Choice, sum: string)
    requires Due(w, a, c) && Carried(w, sum)
    ensures Carried(Perform(w, a, c), sum)
  {
    var key :| CarriedAt(w, sum, key);
    var w' := Perform(w, a, c);
    assert PathOk(w, key);
    if key != a.rel {
      assert key != c.copy;
      OthersKeep(w, a, c, key);
      hide Perform, Answer;
      assert CarriedAt(w', sum, key);
    } else {
      NotAFolder(w, a, c);
      assert CarriedAt(w', sum, key) || (a.ConflictCopy? && CarriedAt(w', sum, c.copy));
    }
  }

  // -------------------------------------------------------- what the planner makes of it

  /** The lists given to the planner hold exactly the world's entries; nothing is left alone or held. */
  ghost predicate Reads(w: World, input: PlanInput) {
    && input.mode == TwoWay && input.allowEmptied && input.skipped == [] && input.excluded == []
    && (forall x <- input.local :: x.rel in w.local && w.local[x.rel] == x)
    && (forall key <- w.local :: w.local[key] in input.local)
    && (forall x <- input.remote :: x.rel in w.remote && w.remote[x.rel] == x.item)
    && (forall key <- w.remote :: Scoped(key, w.remote[key]) in input.remote)
    && (forall x <- input.base :: x.rel in w.base && w.base[x.rel] == x)
    && (forall key <- w.base :: w.base[key] in input.base)
  }

  lemma {:induction false} IdMapAt(xs: seq<Scoped>)
    ensures forall id <- IdMap(xs) :: IdMap(xs)[id].item.id == id && IdMap(xs)[id] in xs
  {
    if xs != [] { IdMapAt(xs[..|xs| - 1]); }
  }

  lemma {:induction false} InoMapHas(xs: seq<LocalFile>, base: map<Rel, BaseEntry>)
    ensures forall ino <- InoMap(xs, base) :: InoMap(xs, base)[ino].ino == ino && ino != UNKNOWN_INO
  {
    if xs != [] { InoMapHas(xs[..|xs| - 1], base); }
  }

  lemma LocalRead(w: World, input: PlanInput)
    requires Ok(w) && Reads(w, input)
    ensures ViewOf(input).local == w.local
  {
    LocalMapAt(input.local);
    var got := LocalMap(input.local);
    forall key | key in w.local
      ensures key in got
    {
      assert PathOk(w, key);
      var i :| 0 <= i < |input.local| && input.local[i] == w.local[key];
      assert LocalRels(input.local)[i] == key;
    }
    assert got.Keys == w.local.Keys;
  }

  lemma RemoteRead(w: World, input: PlanInput)
    requires Reads(w, input)
    ensures ViewOf(input).remote.Keys == w.remote.Keys
    ensures forall key <- w.remote :: ViewOf(input).remote[key].item == w.remote[key]
  {
    RemoteMapAt(input.remote);
    var got := RemoteMap(input.remote);
    forall key | key in w.remote
      ensures key in got
    {
      var i :| 0 <= i < |input.remote| && input.remote[i] == Scoped(key, w.remote[key]);
      assert RemoteRels(input.remote)[i] == key;
    }
    assert got.Keys == w.remote.Keys;
  }

  lemma BaseRead(w: World, input: PlanInput)
    requires Ok(w) && Reads(w, input)
    ensures ViewOf(input).base == w.base
  {
    BaseMapAt(input.base);
    forall key | key in w.base
      ensures key in BaseMap(input.base)
    {
      assert PathOk(w, key);
      assert w.base[key].rel == key;
    }
    assert BaseMap(input.base).Keys == w.base.Keys;
  }

  /** The planner's indexes, in terms of the world. */
  ghost predicate Mirrors(w: World, v: View) {
    && v.mode == TwoWay && v.local == w.local && v.base == w.base
    && v.remote.Keys == w.remote.Keys && (forall key <- w.remote :: v.remote[key].item == w.remote[key])
    && v.hidden == {} && v.hiddenInos == {} && v.hiddenIds == {}
    && (forall id <- v.remoteById :: v.remoteById[id].rel in w.remote && w.remote[v.remoteById[id].rel].id == id)
    && (forall ino <- v.localByIno :: var f := v.localByIno[ino];
          ino != UNKNOWN_INO && f.ino == ino && f.rel in w.local && w.local[f.rel] == f && f.rel !in w.base)
  }

  lemma ViewMirrors(w: World, input: PlanInput)
    requires Ok(w) && Reads(w, input)
    ensures Mirrors(w, ViewOf(input))
  {
    LocalRead(w, input);
    RemoteRead(w, input);
    BaseRead(w, input);
    IdMapAt(input.remote);
    InoMapHas(input.local, BaseMap(input.base));
    InoMapAt(input.local, BaseMap(input.base));
    assert AllExcluded(input) == [];
  }

  lemma NothingMoves(w: World, v: View, entry: BaseEntry)
    requires Ok(w) && Mirrors(w, v) && entry.rel in w.base && w.base[entry.rel] == entry
    ensures MoveOf(v, entry) == None
  {
    assert PathOk(w, entry.rel);
    if entry.remoteId in v.remoteById { assert IdOk(w, v.remoteById[entry.remoteId].rel, entry.rel); }
    if entry.ino in v.localByIno { assert InoOk(w, v.localByIno[entry.ino].rel, entry.rel); }
  }

  lemma {:induction false} NoMovesPlanned(w: World, v: View, sorted: seq<BaseEntry>)
    requires Ok(w) && Mirrors(w, v) && forall e <- sorted :: e.rel in w.base && w.base[e.rel] == e
    ensures MovesOf(v, sorted) == Moving([], {})
  {
    if sorted != [] {
      NoMovesPlanned(w, v, sorted[..|sorted| - 1]);
      NothingMoves(w, v, sorted[|sorted| - 1]);
    }
  }

  /** On every path the planner decides by the three versions there, as the two-way rule has it. */
  lemma DecidesByVersions(w: World, v: View, key: Rel, dirty: Dirty)
    requires Ok(w) && Mirrors(w, v) && Known(w, key)
    ensures Decide(v, CellAt(v, key), dirty) == Decision(Answer(w, key), false, None)
  {
    assert PathOk(w, key);
    if key in w.base {
      var entry := w.base[key];
      if entry.remoteId in v.remoteById { assert IdOk(w, v.remoteById[entry.remoteId].rel, key); }
      if entry.ino in v.localByIno { assert InoOk(w, v.localByIno[entry.ino].rel, key); }
    }
  }

  lemma {:induction false} DrawsAnswers(w: World, p: Pass, keys: seq<Rel>)
    requires Ok(w) && Mirrors(w, p.v) && p.pending == {} && p.vanished == {}
    requires forall key <- keys :: Known(w, key)
    ensures var d := DrawnUp(p, keys);
            && d.gone == {} && d.needsHash == []
            && (forall key <- keys :: Answer(w, key).Some? ==> Answer(w, key).value in d.actions)
            && (forall a <- d.actions :: exists key :: key in keys && Answer(w, key) == Some(a))
  {
    if keys != [] {
      var n := |keys| - 1;
      DrawsAnswers(w, p, keys[..n]);
      DecidesByVersions(w, p.v, keys[n], p.dirty);
      hide Decide, Answer, Ok, Mirrors;
      assert keys[n] in keys && forall key <- keys :: key in keys[..n] || key == keys[n];
    }
  }

  lemma BaseRelsRead(w: World, input: PlanInput, key: Rel)
    requires Ok(w) && Reads(w, input)
    ensures key in BaseRels(input.base) <==> key in w.base
  {
    if key in w.base {
      assert PathOk(w, key);
      var i :| 0 <= i < |input.base| && input.base[i] == w.base[key];
      assert BaseRels(input.base)[i] == key;
    }
  }

  lemma PathsAreKnown(w: World, input: PlanInput)
    requires Ok(w) && Reads(w, input)
    ensures forall key :: key in ByDepth(AllPaths(input)) <==> Known(w, key)
  {
    MapKeys(input);
    LocalRead(w, input);
    RemoteRead(w, input);
    forall key
      ensures key in ByDepth(AllPaths(input)) <==> Known(w, key)
    {
      BaseRelsRead(w, input, key);
      PathFrom(input, key);
      assert key in LocalRels(input.local) <==> key in ViewOf(input).local.Keys;
      assert key in RemoteRels(input.remote) <==> key in ViewOf(input).remote.Keys;
      hide ByDepth, AllPaths, Ok, Reads, ViewOf, LocalRels, RemoteRels, BaseRels;
    }
  }

  lemma PathFrom(input: PlanInput, key: Rel)
    ensures key in ByDepth(AllPaths(input)) <==>
            key in LocalRels(input.local) || key in RemoteRels(input.remote) || key in BaseRels(input.base)
  {
    InByDepth(AllPaths(input), key);
    RelsKeep(LocalRels(input.local) + RemoteRels(input.remote) + BaseRels(input.base));
    hide ByDepth, Rels, LocalRels, RemoteRels, BaseRels;
  }

  lemma ReadIsProper(w: World, input: PlanInput)
    requires Ok(w) && Reads(w, input)
    ensures ProperInput(input)
  {
    forall x | x in input.local ensures x.rel != [] { assert PathOk(w, x.rel); }
    forall x | x in input.remote ensures x.rel != [] { assert PathOk(w, x.rel); }
    forall x | x in input.base ensures x.rel != [] { assert PathOk(w, x.rel); }
  }

  /** The version that an action of a plan takes off one side is no change of that side: the base has it. */
  predicate TakesKnown(w: World, a: Action) {
    match a
    case TrashLocal(rel, _) => rel in w.base && !ChangedHere(w, rel)
    case TrashRemote(rel, _) => rel in w.base && !ChangedThere(w, rel)
    case Download(rel, _, replacing) => replacing.Some? ==> rel in w.base && !ChangedHere(w, rel)
    case Upload(rel, _, replace) => replace.Some? ==> rel in w.base && !ChangedThere(w, rel)
    case _ => true
  }

  /** Whatever a round trashes or replaces, nobody has changed since the last one. */
  lemma RoundsTakeOnlyKnown(w: World, input: PlanInput, a: Action)
    requires Ok(w) && Reads(w, input) && a in PlanOf(input).actions
    ensures Safe(input, ViewOf(input), a) && TakesKnown(w, a)
  {
    ReadIsProper(w, input);
    DeletionsAreSafe(input, a);
    ViewMirrors(w, input);
    PlanIsAnswers(w, input);
    hide Reads, ViewOf, PlanOf;
    SafeTakesKnown(w, input, ViewOf(input), a);
  }

  lemma SafeTakesKnown(w: World, input: PlanInput, v: View, a: Action)
    requires Ok(w) && Mirrors(w, v) && Safe(input, v, a) && !IsMove(a) && Answer(w, a.rel) == Some(a)
    ensures TakesKnown(w, a)
  {
    assert PathOk(w, a.rel);
    hide QuietHere, QuietThere;
  }

  /** The plan: for every path the two-way rule's answer, and nothing else. */
  lemma PlanIsAnswers(w: World, input: PlanInput)
    requires Ok(w) && Reads(w, input)
    ensures var plan := PlanOf(input);
            && plan.hold == None && plan.needsHash == []
            && (forall key :: Answer(w, key).Some? ==> Answer(w, key).value in plan.actions)
            && (forall a <- plan.actions :: !IsMove(a) && Answer(w, a.rel) == Some(a))
  {
    var v := ViewOf(input);
    ViewMirrors(w, input);
    forall e | e in ShallowFirst(input.base)
      ensures e.rel in w.base && w.base[e.rel] == e
    {
      ShallowFirstKeeps(input.base, e);
    }
    NoMovesPlanned(w, v, ShallowFirst(input.base));
    PathsAreKnown(w, input);
    assert VanishedFolders(v) == {};
    DrawsAnswers(w, PassOf(input), ByDepth(AllPaths(input)));
    hide ViewOf, DrawnUp, AllPaths, ByDepth, ShallowFirst;
    forall key | Answer(w, key).Some? ensures Known(w, key) {}
    forall a | a in PlanOf(input).actions
      ensures !IsMove(a) && Answer(w, a.rel) == Some(a)
    {
      AnswerNames(w, a);
    }
  }

  lemma AnswerNames(w: World, a: Action)
    ensures (exists key :: Answer(w, key) == Some(a)) ==> !IsMove(a) && Answer(w, a.rel) == Some(a)
  {
  }

  // ---------------------------------------------------------------------------- a round

  ghost function PerformAll(w: World, order: seq<Action>, choices: seq<Choice>): World
    requires |choices| == |order|
    decreases order
  {
    if order == [] then w else PerformAll(Perform(w, order[0], choices[0]), order[1..], choices[1..])
  }

  ghost predicate AllFresh(w: World, order: seq<Action>, choices: seq<Choice>)
    decreases order
  {
    |choices| == |order| &&
    (order != [] ==>
       && !IsMove(order[0]) && Fresh(w, order[0].rel, choices[0])
       && AllFresh(Perform(w, order[0], choices[0]), order[1..], choices[1..]))
  }

  /** The plan for `w` is carried out, its actions in any order. */
  ghost predicate Round(w: World, input: PlanInput, order: seq<Action>, choices: seq<Choice>, w': World) {
    && Reads(w, input) && multiset(order) == multiset(PlanOf(input).actions)
    && AllFresh(w, order, choices) && w' == PerformAll(w, order, choices)
  }

  predicate Ordered(w: World, order: seq<Action>) {
    && (forall i | 0 <= i < |order| :: !IsMove(order[i]) && Answer(w, order[i].rel) == Some(order[i]))
    && (forall i, j | 0 <= i < j < |order| :: At(order[i]) != At(order[j]))
  }

  /** Paths that nothing is left to do about need at most `n` more rounds; the others one more. */
  ghost predicate Within(w: World, order: seq<Action>, n: nat) {
    forall key :: Rank(w, key) <= n || (Rank(w, key) <= n + 1 && exists i :: 0 <= i < |order| && At(order[i]) == key)
  }

  lemma OrderedAfter(w: World, order: seq<Action>, c: Choice)
    requires order != [] && Ordered(w, order) && Due(w, order[0], c)
    ensures Ordered(Perform(w, order[0], c), order[1..])
  {
    var w' := Perform(w, order[0], c);
    forall i | 0 < i < |order|
      ensures !IsMove(order[i]) && Answer(w', order[i].rel) == Some(order[i])
    {
      var key := order[i].rel;
      assert At(order[i]) != At(order[0]) && Known(w, key);
      OthersKeep(w, order[0], c, key);
      hide Perform;
    }
  }

  lemma WithinAfter(w: World, order: seq<Action>, c: Choice, n: nat)
    requires order != [] && Ordered(w, order) && Due(w, order[0], c) && Within(w, order, n)
    requires Rank(w, order[0].rel) <= n + 1
    ensures Within(Perform(w, order[0], c), order[1..], n)
  {
    var a, w' := order[0], Perform(w, order[0], c);
    OwnPath(w, a, c);
    if a.ConflictCopy? { CopyPath(w, a, c); }
    hide Perform, Answer, Ok, Ordered, Fresh;
    forall key
      ensures Rank(w', key) <= n ||
              (Rank(w', key) <= n + 1 && exists i :: 0 <= i < |order| - 1 && At(order[1..][i]) == key)
    {
      if key != a.rel && (a.ConflictCopy? ==> key != c.copy) {
        OthersKeep(w, a, c, key);
        SameRank(w, w', key);
        StillToDo(w, order, n, key);
      }
    }
  }

  lemma SameRank(w: World, u: World, key: Rel)
    requires SameCell(w, u, key)
    ensures Rank(w, key) == Rank(u, key)
  {
  }

  lemma StillToDo(w: World, order: seq<Action>, n: nat, key: Rel)
    requires order != [] && Within(w, order, n) && At(order[0]) != key
    ensures Rank(w, key) <= n || (Rank(w, key) <= n + 1 && exists i :: 0 <= i < |order| - 1 && At(order[1..][i]) == key)
  {
    if Rank(w, key) > n {
      var i :| 0 <= i < |order| && At(order[i]) == key;
      assert order[1..][i - 1] == order[i];
    }
  }

  lemma {:induction false} RoundLowers(w: World, order: seq<Action>, choices: seq<Choice>, n: nat)
    requires Ok(w) && Ordered(w, order) && AllFresh(w, order, choices) && Within(w, order, n)
    requires forall key :: Rank(w, key) <= n + 1
    ensures var w' := PerformAll(w, order, choices);
            && Ok(w') && (forall key :: Rank(w', key) <= n)
            && forall sum :: Carried(w, sum) ==> Carried(w', sum)
    decreases order
  {
    if order != [] {
      var a, c := order[0], choices[0];
      assert Due(w, a, c);
      OrderedAfter(w, order, c);
      WithinAfter(w, order, c, n);
      ActionKeepsOk(w, a, c);
      forall sum | Carried(w, sum) ensures Carried(Perform(w, a, c), sum) { ActionCarries(w, a, c, sum); }
      hide Due, Perform, Answer, Ok, Carried, Ordered, Fresh;
      forall key ensures Rank(Perform(w, a, c), key) <= n + 1 { assert Rank(Perform(w, a, c), key) <= n + 1; }
      RoundLowers(Perform(w, a, c), order[1..], choices[1..], n);
    }
  }

  lemma OrderOfPlan(w: World, input: PlanInput, order: seq<Action>)
    requires Ok(w) && Reads(w, input) && multiset(order) == multiset(PlanOf(input).actions)
    ensures Ordered(w, order)
    ensures forall key :: Answer(w, key).Some? ==> exists i :: 0 <= i < |order| && At(order[i]) == key
  {
    PlanIsAnswers(w, input);
    PlanNamesOnce(input);
    OrderOfActions(w, PlanOf(input).actions, order);
    hide *;
  }

  lemma PlanNamesOnce(input: PlanInput)
    requires forall a <- PlanOf(input).actions :: !IsMove(a)
    ensures NamesOnce(PlanOf(input).actions)
  {
    var actions := PlanOf(input).actions;
    hide PlanOf;
    forall i, j | 0 <= i < j < |actions|
      ensures At(actions[i]) != At(actions[j])
    {
      OneActionAPath(input, i, j);
    }
  }

  predicate NamesOnce(actions: seq<Action>) {
    forall i, j | 0 <= i < j < |actions| :: At(actions[i]) != At(actions[j])
  }

  lemma OrderOfActions(w: World, actions: seq<Action>, order: seq<Action>)
    requires multiset(order) == multiset(actions) && NamesOnce(actions)
    requires forall a <- actions :: !IsMove(a) && Answer(w, a.rel) == Some(a)
    requires forall key :: Answer(w, key).Some? ==> Answer(w, key).value in actions
    ensures Ordered(w, order)
    ensures forall key :: Answer(w, key).Some? ==> exists i :: 0 <= i < |order| && At(order[i]) == key
  {
    forall i | 0 <= i < |order|
      ensures order[i] in actions
    {
      assert order[i] in multiset(order);
    }
    DistinctOrder(actions, order);
    forall key | Answer(w, key).Some?
      ensures exists i :: 0 <= i < |order| && At(order[i]) == key
    {
      var a := Answer(w, key).value;
      AnswerAt(w, key);
      assert a in multiset(order);
      var i :| 0 <= i < |order| && order[i] == a;
    }
    hide Answer;
  }

  lemma AnswerAt(w: World, key: Rel)
    ensures Answer(w, key).Some? ==> !IsMove(Answer(w, key).value) && At(Answer(w, key).value) == key
  {
  }

  lemma DistinctOrder(a: seq<Action>, b: seq<Action>)
    requires multiset(a) == multiset(b) && forall i, j | 0 <= i < j < |a| :: At(a[i]) != At(a[j])
    ensures forall i, j | 0 <= i < j < |b| :: At(b[i]) != At(b[j])
  {
    forall i, j | 0 <= i < j < |b|
      ensures At(b[i]) != At(b[j])
    {
      ActionOnce(a, b[i]);
      if b[i] == b[j] { Twice(b, i, j); }
      else {
        assert b[i] in multiset(b) && b[j] in multiset(b);
        assert b[i] in multiset(a) && b[j] in multiset(a);
        var k :| 0 <= k < |a| && a[k] == b[i];
        var l :| 0 <= l < |a| && a[l] == b[j];
      }
    }
  }

  lemma {:induction false} ActionOnce(a: seq<Action>, x: Action)
    requires forall i, j | 0 <= i < j < |a| :: At(a[i]) != At(a[j])
    ensures multiset(a)[x] <= 1
  {
    if a != [] {
      ActionOnce(a[1..], x);
      assert a == [a[0]] + a[1..];
      assert a[0] !in a[1..];
      assert x == a[0] ==> x !in multiset(a[1..]);
    }
  }

  /** The decreasing measure: a round takes one off every path's rank, and the most is two. */
  lemma RoundTakesOneOff(w: World, input: PlanInput, order: seq<Action>, choices: seq<Choice>, w': World, n: nat)
    requires Ok(w) && Round(w, input, order, choices, w') && n >= 0 && forall key :: Rank(w, key) <= n + 1
    ensures Ok(w') && (forall key :: Rank(w', key) <= n) && forall sum :: Carried(w, sum) ==> Carried(w', sum)
  {
    OrderOfPlan(w, input, order);
    forall key
      ensures Rank(w, key) <= n || (Rank(w, key) <= n + 1 && exists i :: 0 <= i < |order| && At(order[i]) == key)
    {
      assert Rank(w, key) > 0 ==> Answer(w, key).Some?;
    }
    RoundLowers(w, order, choices, n);
  }

  /** Both sides have the same files with the same contents. */
  ghost predicate InSync(w: World) {
    && w.local.Keys == w.remote.Keys
    && forall key <- w.local :: w.local[key].kind == w.remote[key].kind &&
         (w.local[key].kind == File ==> w.local[key].checksum == w.remote[key].checksum)
  }

  lemma NothingLeftMeansInSync(w: World)
    requires Ok(w) && forall key :: Rank(w, key) == 0
    ensures InSync(w) && forall sum :: Carried(w, sum) ==> exists key :: HeldAt(w, sum, key)
  {
    forall key
      ensures key in w.local <==> key in w.remote
      ensures key in w.local && key in w.remote ==> w.local[key].kind == w.remote[key].kind
      ensures key in w.local && key in w.remote && w.local[key].kind == File ==>
              w.local[key].checksum == w.remote[key].checksum
    {
      assert PathOk(w, key) && Rank(w, key) == 0;
    }
    forall sum | Carried(w, sum)
      ensures exists key :: HeldAt(w, sum, key)
    {
      var key :| CarriedAt(w, sum, key);
      assert PathOk(w, key) && Rank(w, key) == 0;
      assert HeldAt(w, sum, key);
    }
  }

  /**
   * Two rounds are enough.  After them the plan is empty, both sides hold the
   * same files, and the contents of every file that differed from the base --
   * here or on the server -- are on both sides, under their name or as a copy.
   */
  lemma TwoRoundsConverge(w0: World, input0: PlanInput, order0: seq<Action>, choices0: seq<Choice>,
    w1: World, input1: PlanInput, order1: seq<Action>, choices1: seq<Choice>, w2: World, input2: PlanInput)
    requires Ok(w0) && Round(w0, input0, order0, choices0, w1) && Round(w1, input1, order1, choices1, w2)
    requires Reads(w2, input2)
    ensures PlanOf(input2) == Plan([], None, []) && InSync(w2)
    ensures forall sum, key :: CarriedAt(w0, sum, key) ==> exists p :: HeldAt(w2, sum, p)
  {
    assert forall key :: Rank(w0, key) <= 2;
    RoundTakesOneOff(w0, input0, order0, choices0, w1, 1);
    RoundTakesOneOff(w1, input1, order1, choices1, w2, 0);
    assert forall sum, key :: CarriedAt(w0, sum, key) ==> Carried(w0, sum);
    hide *;
    NothingLeftMeansInSync(w2);
    NothingLeftMeansNoPlan(w2, input2);
  }

  lemma NothingLeftMeansNoPlan(w: World, input: PlanInput)
    requires Ok(w) && Reads(w, input) && forall key :: Rank(w, key) == 0
    ensures PlanOf(input) == Plan([], None, [])
  {
    PlanIsAnswers(w, input);
    NoAnswers(w);
    hide *;
    if PlanOf(input).actions != [] { HasFirst(PlanOf(input).actions); }
  }

  lemma HasFirst(actions: seq<Action>)
    requires actions != []
    ensures exists a :: a in actions
  {
    assert actions[0] in actions;
  }

  lemma NoAnswers(w: World)
    requires forall key :: Rank(w, key) == 0
    ensures forall key :: Answer(w, key) == None
  {
    forall key ensures Answer(w, key) == None { assert Rank(w, key) == 0; }
  }

  /** The setting is a real one: a file edited on both sides. */
  const EDITED := World(
    map[["f"] := LocalFile(["f"], File, 2, 20, "7", Some("mine"))],
    map[["f"] := Item("id", File, 2, Some("theirs"))],
    map[["f"] := BaseEntry(["f"], File, "id", 1, Some("old"), 1, 10, "7")])

  lemma EditedOnBothSides()
    ensures Ok(EDITED) && Answer(EDITED, ["f"]) == Some(ConflictCopy(["f"], EDITED.local[["f"]], false, None))
    ensures CarriedAt(EDITED, "mine", ["f"]) && CarriedAt(EDITED, "theirs", ["f"])
  {
    assert "mine"[0] != "theirs"[0] && "mine"[0] != "old"[0] && "theirs"[0] != "old"[0];
    forall key ensures PathOk(EDITED, key) {}
    forall p, q ensures IdOk(EDITED, p, q) {}
    forall p, q ensures InoOk(EDITED, p, q) {}
  }
}
