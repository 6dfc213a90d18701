/** Label projections and the plan that brings a repository's labels in line with them:
    src/work-items.ts. */
module LabelPlan {
  import opened Wrappers

  datatype Projection = Projection(classification: string, name: string, description: string, color: string, aliases: seq<string>)

  /** `managed` is missing for labels nobody has claimed. */
  datatype Label = Label(name: string, color: string, description: string, managed: Option<bool>)

  datatype Action = Create | Conflict | Update | Noop | Candidate | Unmanaged
  datatype Entry = Entry(action: Action, classification: Option<string>, labelName: string)

  // ---- Unique names ----

  function Names(p: Projection): seq<string> {
    [p.name] + p.aliases
  }

  function AllNames(ps: seq<Projection>): seq<string> {
    if ps == [] then [] else AllNames(ps[..|ps| - 1]) + Names(ps[|ps| - 1])
  }

  predicate Distinct(xs: seq<string>) {
    forall i, j :: 0 <= i < j < |xs| ==> xs[i] != xs[j]
  }

  function Classifications(ps: seq<Projection>): seq<string> {
    seq(|ps|, i requires 0 <= i < |ps| => ps[i].classification)
  }

  /** What the parser insists on: known classifications, each projected once, and no name or alias
      used twice, across all projections. */
  predicate WellNamed(ps: seq<Projection>, known: set<string>) {
    && (forall i :: 0 <= i < |ps| ==> ps[i].classification in known)
    && Distinct(Classifications(ps)) && Distinct(AllNames(ps))
  }

  lemma DistinctPrefix(xs: seq<string>, ys: seq<string>)
    requires Distinct(xs + ys)
    ensures Distinct(xs) && Distinct(ys) && forall i, j :: 0 <= i < |xs| && 0 <= j < |ys| ==> xs[i] != ys[j]
  {
    forall i, j | 0 <= i < j < |xs|
      ensures xs[i] != xs[j]
    {
      assert (xs + ys)[i] != (xs + ys)[j];
    }
    forall i, j | 0 <= i < j < |ys|
      ensures ys[i] != ys[j]
    {
      assert (xs + ys)[|xs| + i] != (xs + ys)[|xs| + j];
    }
    forall i, j | 0 <= i < |xs| && 0 <= j < |ys|
      ensures xs[i] != ys[j]
    {
      assert (xs + ys)[i] != (xs + ys)[|xs| + j];
    }
  }

  lemma DistinctAppend(xs: seq<string>, y: string)
    ensures Distinct(xs + [y]) <==> Distinct(xs) && y !in xs
  {
    if Distinct(xs + [y]) {
      DistinctPrefix(xs, [y]);
      assert [y][0] == y;
    }
  }

  lemma WellNamedPrefix(ps: seq<Projection>, known: set<string>, n: nat)
    requires n < |ps| && WellNamed(ps[..n + 1], known)
    ensures WellNamed(ps[..n], known)
  {
    var longer := ps[..n + 1];
    assert longer[..|longer| - 1] == ps[..n];
    DistinctPrefix(AllNames(ps[..n]), Names(longer[n]));
    assert Classifications(longer) == Classifications(ps[..n]) + [ps[n].classification];
    DistinctPrefix(Classifications(ps[..n]), [ps[n].classification]);
    assert forall i :: 0 <= i < n ==> ps[..n][i] == longer[i];
  }

  lemma {:induction false} NotWellNamed(ps: seq<Projection>, known: set<string>, n: nat)
    requires n <= |ps| && !WellNamed(ps[..n], known)
    ensures !WellNamed(ps, known)
    decreases |ps| - n
  {
    if n == |ps| {
      assert ps[..n] == ps;
    } else {
      if WellNamed(ps[..n + 1], known) {
        WellNamedPrefix(ps, known, n);
      }
      NotWellNamed(ps, known, n + 1);
    }
  }

  /** The name checks of `parseProjectionsText`, one projection after the other. */
  method CheckNames(ps: seq<Projection>, known: set<string>) returns (ok: bool)
    ensures ok <==> WellNamed(ps, known)
  {
    var classified: set<string>, occupied: set<string> := {}, {};
    for i := 0 to |ps|
      invariant WellNamed(ps[..i], known)
      invariant forall c :: c in classified <==> c in Classifications(ps[..i])
      invariant forall x :: x in occupied <==> x in AllNames(ps[..i])
    {
      var p := ps[i];
      assert ps[..i + 1][..i] == ps[..i];
      assert Classifications(ps[..i + 1]) == Classifications(ps[..i]) + [p.classification];
      DistinctAppend(Classifications(ps[..i]), p.classification);
      if p.classification !in known || p.classification in classified {
        assert ps[..i + 1][i] == p;
        NotWellNamed(ps, known, i + 1);
        return false;
      }
      classified := classified + {p.classification};
      var free;
      free, occupied := Occupy(AllNames(ps[..i]), Names(p), occupied);
      if !free {
        NotWellNamed(ps, known, i + 1);
        return false;
      }
    }
    assert ps[..|ps|] == ps;
    return true;
  }

  /** Takes the name and the aliases of one projection, unless one is taken already. */
  method Occupy(taken: seq<string>, names: seq<string>, occupied: set<string>) returns (free: bool, occupied': set<string>)
    requires Distinct(taken) && forall x :: x in occupied <==> x in taken
    ensures free <==> Distinct(taken + names)
    ensures free ==> forall x :: x in occupied' <==> x in taken + names
  {
    occupied' := occupied;
    assert taken + names[..0] == taken;
    for i := 0 to |names|
      invariant Distinct(taken + names[..i])
      invariant forall x :: x in occupied' <==> x in taken + names[..i]
    {
      assert taken + names[..i + 1] == (taken + names[..i]) + [names[i]];
      DistinctAppend(taken + names[..i], names[i]);
      if names[i] in occupied' {
        assert taken + names == (taken + names[..i + 1]) + names[i + 1..];
        if Distinct(taken + names) {
          DistinctPrefix(taken + names[..i + 1], names[i + 1..]);
        }
        return false, occupied';
      }
      occupied' := occupied' + {names[i]};
    }
    assert names[..|names|] == names;
    return true, occupied';
  }

  // ---- The plan, entry by entry ----

  type Inventory = map<string, Label>

  function EntryFor(p: Projection, labels: Inventory): Entry {
    if p.name !in labels then Entry(Create, Some(p.classification), p.name)
    else
      var existing := labels[p.name];
      if existing.managed == Some(false) then Entry(Conflict, Some(p.classification), existing.name)
      else if existing.color != p.color || existing.description != p.description then Entry(Update, Some(p.classification), existing.name)
      else Entry(Noop, Some(p.classification), existing.name)
  }

  /** The projection an alias leads to, the last one if there were several. */
  function AliasOf(ps: seq<Projection>, name: string): Option<Projection> {
    if ps == [] then None
    else if name in ps[|ps| - 1].aliases then Some(ps[|ps| - 1])
    else AliasOf(ps[..|ps| - 1], name)
  }

  function RestEntry(ps: seq<Projection>, name: string): Entry {
    match AliasOf(ps, name)
    case None => Entry(Unmanaged, None, name)
    case Some(p) => Entry(Candidate, Some(p.classification), name)
  }

  predicate IsProjected(ps: seq<Projection>, name: string) {
    exists i :: 0 <= i < |ps| && ps[i].name == name
  }

  function RestOf(ps: seq<Projection>, names: seq<string>): seq<Entry> {
    if names == [] then []
    else
      var before, name := RestOf(ps, names[..|names| - 1]), names[|names| - 1];
      if IsProjected(ps, name) then before else before + [RestEntry(ps, name)]
  }

  function Projected(ps: seq<Projection>, labels: Inventory): seq<Entry> {
    seq(|ps|, i requires 0 <= i < |ps| => EntryFor(ps[i], labels))
  }

  /** One entry per projection, in order, then one per remaining label, in the listed order. */
  function PlanOf(ps: seq<Projection>, labels: Inventory, names: seq<string>): seq<Entry> {
    Projected(ps, labels) + RestOf(ps, names)
  }

  ghost predicate Keyed(labels: Inventory) {
    forall name :: name in labels ==> labels[name].name == name
  }

  ghost predicate Lists(names: seq<string>, labels: Inventory) {
    Distinct(names) && forall name :: name in names <==> name in labels
  }

  /** The labels by name; of two with one name the later counts. */
  function ByName(inventory: seq<Label>): Inventory {
    if inventory == [] then map[] else ByName(inventory[..|inventory| - 1])[inventory[|inventory| - 1].name := inventory[|inventory| - 1]]
  }

  lemma {:induction false} ByNameIsKeyed(inventory: seq<Label>)
    ensures Keyed(ByName(inventory))
  {
    if inventory != [] {
      ByNameIsKeyed(inventory[..|inventory| - 1]);
    }
  }

  method IndexByName(inventory: seq<Label>) returns (byName: Inventory)
    ensures byName == ByName(inventory) && Keyed(byName)
  {
    ByNameIsKeyed(inventory);
    byName := map[];
    for i := 0 to |inventory|
      invariant byName == ByName(inventory[..i])
    {
      assert inventory[..i + 1][..i] == inventory[..i];
      byName := byName[inventory[i].name := inventory[i]];
    }
    assert inventory[..|inventory|] == inventory;
  }

  /** The entries of the projections, and the labels they take. */
  method PlanProjections(ps: seq<Projection>, byName: Inventory) returns (entries: seq<Entry>, consumed: set<string>)
    requires Keyed(byName)
    ensures entries == Projected(ps, byName)
    ensures forall name :: name in consumed <==> name in byName && IsProjected(ps, name)
  {
    entries, consumed := [], {};
    for i := 0 to |ps|
      invariant entries == Projected(ps, byName)[..i]
      invariant forall name :: name in consumed <==> name in byName && IsProjected(ps[..i], name)
    {
      var p := ps[i];
      ProjectedNext(ps, i);
      if p.name !in byName {
        entries := entries + [Entry(Create, Some(p.classification), p.name)];
        continue;
      }
      var existing := byName[p.name];
      consumed := consumed + {existing.name};
      if existing.managed == Some(false) {
        entries := entries + [Entry(Conflict, Some(p.classification), existing.name)];
        continue;
      }
      if existing.color != p.color || existing.description != p.description {
        entries := entries + [Entry(Update, Some(p.classification), existing.name)];
      } else {
        entries := entries + [Entry(Noop, Some(p.classification), existing.name)];
      }
    }
    assert ps[..|ps|] == ps;
  }

  /** What the entry of a projection says: nothing there, somebody else's, drifted, or as it should be. */
  predicate SaysOfProjection(p: Projection, labels: Inventory, e: Entry) {
    && e.classification == Some(p.classification) && e.labelName == p.name
    && (e.action == Create <==> p.name !in labels)
    && (e.action == Conflict <==> p.name in labels && labels[p.name].managed == Some(false))
    && (e.action == Noop <==>
          && p.name in labels && labels[p.name].managed != Some(false)
          && labels[p.name].color == p.color && labels[p.name].description == p.description)
    && e.action != Candidate && e.action != Unmanaged
  }

  /** What the entry of a label that no projection names says: somebody's alias, or nobody's. */
  ghost predicate SaysOfLabel(ps: seq<Projection>, e: Entry) {
    && !IsProjected(ps, e.labelName)
    && (e.action == Candidate <==> exists p :: p in ps && e.labelName in p.aliases)
    && (e.action == Candidate ==> exists p :: p in ps && e.labelName in p.aliases && e.classification == Some(p.classification))
    && (e.action == Unmanaged <==> forall p :: p in ps ==> e.labelName !in p.aliases)
    && (e.action == Unmanaged ==> e.classification == None)
  }

  lemma EntrySaysOfProjection(p: Projection, labels: Inventory)
    requires Keyed(labels)
    ensures SaysOfProjection(p, labels, EntryFor(p, labels))
  {
  }

  lemma {:induction false} AliasLeads(ps: seq<Projection>, name: string)
    ensures AliasOf(ps, name).None? <==> forall p :: p in ps ==> name !in p.aliases
    ensures AliasOf(ps, name).Some? ==> AliasOf(ps, name).value in ps && name in AliasOf(ps, name).value.aliases
  {
    if ps != [] {
      var rest, last := ps[..|ps| - 1], ps[|ps| - 1];
      AliasLeads(rest, name);
      assert ps == rest + [last];
    }
  }

  lemma {:induction false} RestSaysOfLabels(ps: seq<Projection>, names: seq<string>)
    ensures forall e :: e in RestOf(ps, names) ==> SaysOfLabel(ps, e)
  {
    if names != [] {
      RestSaysOfLabels(ps, names[..|names| - 1]);
      AliasLeads(ps, names[|names| - 1]);
    }
  }

  /** `buildLabelProjectionPlan`; `ps` and `names` are the sorted listings the source loops over. */
  method BuildPlan(ps: seq<Projection>, inventory: seq<Label>, names: seq<string>) returns (entries: seq<Entry>)
    requires Lists(names, ByName(inventory))
    ensures entries == PlanOf(ps, ByName(inventory), names)
    ensures |entries| >= |ps| && forall i :: 0 <= i < |ps| ==> SaysOfProjection(ps[i], ByName(inventory), entries[i])
    ensures forall i :: |ps| <= i < |entries| ==> SaysOfLabel(ps, entries[i])
  {
    var byName := IndexByName(inventory);
    var aliases := CollectAliases(ps);
    var consumed;
    entries, consumed := PlanProjections(ps, byName);
    for i := 0 to |names|
      invariant entries == Projected(ps, byName) + RestOf(ps, names[..i])
    {
      assert names[..i + 1][..i] == names[..i];
      assert names[i] in byName;
      if names[i] in consumed {
        continue;
      }
      assert Agrees(aliases, ps, names[i]);
      if names[i] in aliases {
        entries := entries + [Entry(Candidate, Some(aliases[names[i]].classification), names[i])];
      } else {
        entries := entries + [Entry(Unmanaged, None, names[i])];
      }
    }
    assert names[..|names|] == names;
    PlanSays(ps, byName, names);
  }

  lemma PlanSays(ps: seq<Projection>, labels: Inventory, names: seq<string>)
    requires Keyed(labels)
    ensures var entries := PlanOf(ps, labels, names);
      && |entries| >= |ps| && (forall i :: 0 <= i < |ps| ==> SaysOfProjection(ps[i], labels, entries[i]))
      && forall i :: |ps| <= i < |entries| ==> SaysOfLabel(ps, entries[i])
  {
    hide SaysOfProjection, SaysOfLabel, EntryFor, RestOf, Keyed;
    var entries := PlanOf(ps, labels, names);
    forall i | 0 <= i < |ps|
      ensures SaysOfProjection(ps[i], labels, entries[i])
    {
      EntrySaysOfProjection(ps[i], labels);
    }
    RestSaysOfLabels(ps, names);
    forall i | |ps| <= i < |entries|
      ensures SaysOfLabel(ps, entries[i])
    {
      assert entries[i] == RestOf(ps, names)[i - |ps|];
    }
  }

  lemma ProjectedNext(ps: seq<Projection>, i: nat)
    requires i < |ps|
    ensures forall name :: IsProjected(ps[..i + 1], name) <==> IsProjected(ps[..i], name) || ps[i].name == name
  {
    forall name
      ensures IsProjected(ps[..i + 1], name) <==> IsProjected(ps[..i], name) || ps[i].name == name
    {
      assert ps[..i + 1][i] == ps[i];
      assert forall k :: 0 <= k < i ==> ps[..i + 1][k] == ps[..i][k];
    }
  }

  method CollectAliases(ps: seq<Projection>) returns (aliases: map<string, Projection>)
    ensures forall name :: Agrees(aliases, ps, name)
  {
    aliases := map[];
    for i := 0 to |ps|
      invariant forall name :: Agrees(aliases, ps[..i], name)
    {
      ghost var before := aliases;
      assert ps[..i + 1][..i] == ps[..i];
      for k := 0 to |ps[i].aliases|
        invariant forall name :: if name in ps[i].aliases[..k] then name in aliases && aliases[name] == ps[i] else SameAlias(before, aliases, name)
      {
        aliases := aliases[ps[i].aliases[k] := ps[i]];
      }
      assert ps[i].aliases[..|ps[i].aliases|] == ps[i].aliases;
      ghost var upTo := ps[..i + 1];
      forall name
        ensures Agrees(aliases, upTo, name)
      {
        assert Agrees(before, ps[..i], name) && upTo[i] == ps[i];
        assert name in ps[i].aliases || SameAlias(before, aliases, name);
      }
    }
    assert ps[..|ps|] == ps;
  }

  predicate SameAlias(x: map<string, Projection>, y: map<string, Projection>, name: string) {
    (name in x <==> name in y) && (name in x ==> x[name] == y[name])
  }

  predicate Agrees(aliases: map<string, Projection>, ps: seq<Projection>, name: string) {
    (name in aliases <==> AliasOf(ps, name).Some?) && (name in aliases ==> AliasOf(ps, name) == Some(aliases[name]))
  }

  // ---- Laws ----

  /** Exactly one entry per projection and one per label that no projection names. */
  lemma {:induction false} RestIsOnePerLabel(ps: seq<Projection>, names: seq<string>, name: string)
    requires Distinct(names) && name in names
    ensures multiset(LabelsOf(RestOf(ps, names)))[name] == if IsProjected(ps, name) then 0 else 1
  {
    var last, before := names[|names| - 1], names[..|names| - 1];
    assert names == before + [last];
    DistinctAppend(before, last);
    RestAppends(ps, names);
    if name in before {
      RestIsOnePerLabel(ps, before, name);
    } else {
      RestHasNoOther(ps, before, name);
    }
  }

  function LabelsOf(entries: seq<Entry>): seq<string> {
    seq(|entries|, i requires 0 <= i < |entries| => entries[i].labelName)
  }

  lemma RestAppends(ps: seq<Projection>, names: seq<string>)
    requires names != []
    ensures var last, before := names[|names| - 1], RestOf(ps, names[..|names| - 1]);
      multiset(LabelsOf(RestOf(ps, names))) == multiset(LabelsOf(before)) + (if IsProjected(ps, last) then multiset{} else multiset{last})
  {
    var last, before := names[|names| - 1], RestOf(ps, names[..|names| - 1]);
    if !IsProjected(ps, last) {
      assert RestEntry(ps, last).labelName == last;
      assert LabelsOf(before + [RestEntry(ps, last)]) == LabelsOf(before) + [last];
    }
  }

  lemma {:induction false} RestHasNoOther(ps: seq<Projection>, names: seq<string>, name: string)
    requires name !in names
    ensures multiset(LabelsOf(RestOf(ps, names)))[name] == 0
  {
    if names != [] {
      assert names[|names| - 1] in names;
      RestAppends(ps, names);
      RestHasNoOther(ps, names[..|names| - 1], name);
    } else {
      assert LabelsOf([]) == [];
    }
  }

  /** What CREATE and UPDATE entries ask for. */
  function Apply(ps: seq<Projection>, labels: Inventory): Inventory {
    if ps == [] then labels
    else
      var done, p := Apply(ps[..|ps| - 1], labels), ps[|ps| - 1];
      match EntryFor(p, labels).action
      case Create => done[p.name := Label(p.name, p.color, p.description, Some(true))]
      case Update => done[p.name := labels[p.name].(color := p.color, description := p.description)]
      case _ => done
  }

  predicate DistinctNames(ps: seq<Projection>) {
    forall i, j :: 0 <= i < j < |ps| ==> ps[i].name != ps[j].name
  }

  lemma {:induction false} AppliedAt(ps: seq<Projection>, labels: Inventory, name: string)
    requires DistinctNames(ps)
    ensures !IsProjected(ps, name) ==> (name in Apply(ps, labels) <==> name in labels) && (name in labels ==> Apply(ps, labels)[name] == labels[name])
    ensures forall i :: 0 <= i < |ps| && ps[i].name == name ==>
      EntryFor(ps[i], Apply(ps, labels)).action == if EntryFor(ps[i], labels).action == Conflict then Conflict else Noop
  {
    if ps != [] {
      var before, p := ps[..|ps| - 1], ps[|ps| - 1];
      AppliedAt(before, labels, name);
      assert IsProjected(before, name) ==> IsProjected(ps, name);
      if p.name == name {
        assert !IsProjected(before, name);
      } else {
        assert forall i :: 0 <= i < |ps| && ps[i].name == name ==> i < |before| && before[i] == ps[i];
      }
    }
  }

  /** After the plan's CREATE and UPDATE entries are carried out, a new plan has neither; conflicts
      stay conflicts, and every other label is as it was. */
  lemma AppliedPlanIsQuiet(ps: seq<Projection>, labels: Inventory, names': seq<string>)
    requires DistinctNames(ps)
    ensures forall i :: 0 <= i < |ps| ==>
      PlanOf(ps, Apply(ps, labels), names')[i].action == if EntryFor(ps[i], labels).action == Conflict then Conflict else Noop
    ensures forall e :: e in PlanOf(ps, Apply(ps, labels), names') ==> e.action != Create && e.action != Update
    ensures forall name :: !IsProjected(ps, name) ==>
      (name in Apply(ps, labels) <==> name in labels) && (name in labels ==> Apply(ps, labels)[name] == labels[name])
  {
    var plan := PlanOf(ps, Apply(ps, labels), names');
    forall i | 0 <= i < |ps|
      ensures plan[i].action == if EntryFor(ps[i], labels).action == Conflict then Conflict else Noop
    {
      AppliedAt(ps, labels, ps[i].name);
    }
    RestIsQuiet(ps, names');
    forall name | !IsProjected(ps, name)
      ensures (name in Apply(ps, labels) <==> name in labels) && (name in labels ==> Apply(ps, labels)[name] == labels[name])
    {
      AppliedAt(ps, labels, name);
    }
  }

  lemma {:induction false} RestIsQuiet(ps: seq<Projection>, names: seq<string>)
    ensures forall e :: e in RestOf(ps, names) ==> e.action == Candidate || e.action == Unmanaged
  {
    if names != [] {
      RestIsQuiet(ps, names[..|names| - 1]);
    }
  }

  /** Parsed projections have distinct names. */
  lemma {:induction false} WellNamedIsDistinct(ps: seq<Projection>, known: set<string>)
    requires WellNamed(ps, known)
    ensures DistinctNames(ps)
  {
    if ps != [] {
      var before, p := ps[..|ps| - 1], ps[|ps| - 1];
      assert ps[..|ps|] == ps;
      WellNamedPrefix(ps, known, |ps| - 1);
      WellNamedIsDistinct(before, known);
      DistinctPrefix(AllNames(before), Names(p));
      forall i | 0 <= i < |before|
        ensures before[i].name != p.name
      {
        NameIsListed(before, i);
        assert Names(p)[0] == p.name;
      }
    }
  }

  lemma {:induction false} NameIsListed(ps: seq<Projection>, i: nat)
    requires i < |ps|
    ensures ps[i].name in AllNames(ps)
  {
    if i < |ps| - 1 {
      NameIsListed(ps[..|ps| - 1], i);
    } else {
      assert Names(ps[i])[0] == ps[i].name;
    }
  }
}
