/** Profile resolution: a depth-first walk over includes that may form cycles, collecting the procs of
    every profile it passes, and the removal of procs whose name was already taken. */
module Profiles {
  import opened Prelude

  // ── The configuration document ──────────────────────────────────────────────

  datatype Yaml =
    | Scalar(text: string)
    | Str(value: string)
    | Seq(items: seq<Yaml>)
    | Map(entries: seq<(Yaml, Yaml)>)

  /** `mapping.get(key)` for a string key. */
  function Get(entries: seq<(Yaml, Yaml)>, key: string): Option<Yaml> {
    if entries == [] then None
    else if entries[0].0 == Str(key) then Some(entries[0].1)
    else Get(entries[1..], key)
  }

  datatype ProcSpec = ProcSpec(
    name: string, argv: seq<string>, cwd: Option<string>, env: seq<(string, string)>, autostart: bool)

  /** The profiles mapping, and the reading of one entry of a `procs` list. */
  datatype Config = Config(profiles: seq<(Yaml, Yaml)>, parseProc: Yaml -> Option<ProcSpec>)

  datatype Problem = NotAMapping | IncludeNotArray | IncludeNotString | ProcsNotArray | BadProc

  /** What is wrong, and with which profile. */
  datatype ProfileError = ProfileError(profile: string, problem: Problem)

  datatype ConfigError = NoProfiles | UnknownProfile(name: string) | BadProfile(error: ProfileError)

  function BodyOf(c: Config, p: string): Option<seq<(Yaml, Yaml)>> {
    match Get(c.profiles, p)
    case Some(Map(entries)) => Some(entries)
    case _ => None
  }

  function FieldOf(c: Config, p: string, field: string): Option<Yaml> {
    match BodyOf(c, p)
    case None => None
    case Some(entries) => Get(entries, field)
  }

  /** `p` lists `q` among its includes. */
  predicate Includes(c: Config, p: string, q: string) {
    match FieldOf(c, p, "include")
    case Some(Seq(items)) => Str(q) in items
    case _ => false
  }

  predicate GoodIncludes(c: Config, p: string) {
    match FieldOf(c, p, "include")
    case None => true
    case Some(Seq(items)) => forall i | 0 <= i < |items| :: items[i].Str?
    case _ => false
  }

  predicate GoodProcs(c: Config, p: string) {
    match FieldOf(c, p, "procs")
    case None => true
    case Some(Seq(items)) => forall i | 0 <= i < |items| :: c.parseProc(items[i]).Some?
    case _ => false
  }

  /** The profile exists and every part of it can be read. */
  predicate GoodProfile(c: Config, p: string) {
    BodyOf(c, p).Some? && GoodIncludes(c, p) && GoodProcs(c, p)
  }

  function ReadProcs(c: Config, items: seq<Yaml>): seq<ProcSpec>
    requires forall i | 0 <= i < |items| :: c.parseProc(items[i]).Some?
  {
    seq(|items|, i requires 0 <= i < |items| => c.parseProc(items[i]).value)
  }

  function ProcsOf(c: Config, p: string): seq<ProcSpec>
    requires GoodProfile(c, p)
  {
    match FieldOf(c, p, "procs")
    case Some(Seq(items)) => ReadProcs(c, items)
    case _ => []
  }

  function Names(c: Config): set<string> {
    set i | 0 <= i < |c.profiles| && c.profiles[i].0.Str? :: c.profiles[i].0.value
  }

  lemma {:induction false} GetIsNamed(entries: seq<(Yaml, Yaml)>, key: string)
    requires Get(entries, key).Some?
    ensures exists i | 0 <= i < |entries| :: entries[i].0 == Str(key)
  {
    if entries[0].0 != Str(key) {
      GetIsNamed(entries[1..], key);
      var i :| 0 <= i < |entries| - 1 && entries[1..][i].0 == Str(key);
      assert entries[i + 1].0 == Str(key);
    }
  }

  // ── Reachability ────────────────────────────────────────────────────────────

  /** A walk along includes. */
  predicate IsPath(c: Config, path: seq<string>) {
    path != [] && forall i | 0 <= i < |path| - 1 :: Includes(c, path[i], path[i + 1])
  }

  predicate PathFromTo(c: Config, path: seq<string>, a: string, b: string) {
    IsPath(c, path) && path[0] == a && path[|path| - 1] == b
  }

  ghost predicate Reaches(c: Config, a: string, b: string) {
    exists path :: PathFromTo(c, path, a, b)
  }

  lemma ReachesSelf(c: Config, a: string)
    ensures Reaches(c, a, a)
  {
    assert PathFromTo(c, [a], a, a);
  }

  lemma ReachesVia(c: Config, p: string, q: string, r: string)
    requires Includes(c, p, q) && Reaches(c, q, r)
    ensures Reaches(c, p, r)
  {
    hide Includes;
    var path :| PathFromTo(c, path, q, r);
    var longer := [p] + path;
    assert forall i | 0 < i < |longer| :: longer[i] == path[i - 1];
    assert PathFromTo(c, longer, p, r);
  }

  ghost predicate Closed(c: Config, s: set<string>) {
    forall p, q | p in s && Includes(c, p, q) :: q in s
  }

  lemma {:induction false} PathStays(c: Config, s: set<string>, path: seq<string>, i: nat)
    requires Closed(c, s) && IsPath(c, path) && path[0] in s && i < |path|
    ensures path[i] in s
  {
    hide Includes;
    if i == 0 {
    } else {
      PathStays(c, s, path, i - 1);
      assert Includes(c, path[i - 1], path[i]);
    }
  }

  lemma ReachedIsInside(c: Config, s: set<string>, a: string, b: string)
    requires Closed(c, s) && a in s && Reaches(c, a, b)
    ensures b in s
  {
    var path :| PathFromTo(c, path, a, b);
    PathStays(c, s, path, |path| - 1);
  }

  // ── The walk ────────────────────────────────────────────────────────────────

  predicate AllGood(c: Config, order: seq<string>) {
    forall i | 0 <= i < |order| :: GoodProfile(c, order[i])
  }

  /** The procs of the profiles, in the order given. */
  function Collect(c: Config, order: seq<string>): seq<ProcSpec>
    requires AllGood(c, order)
  {
    if order == [] then [] else Collect(c, order[..|order| - 1]) + ProcsOf(c, order[|order| - 1])
  }

  lemma CollectSnoc(c: Config, order: seq<string>, p: string)
    requires AllGood(c, order) && GoodProfile(c, p)
    ensures AllGood(c, order + [p])
    ensures Collect(c, order + [p]) == Collect(c, order) + ProcsOf(c, p)
  {
    hide GoodProfile;
    assert (order + [p])[..|order|] == order;
  }

  function NamesOf(items: seq<Yaml>): seq<string> {
    seq(|items|, i requires 0 <= i < |items| => if items[i].Str? then items[i].value else "")
  }

  /** The includes of a profile in the order they are listed. */
  function IncludeNames(c: Config, p: string): seq<string> {
    match FieldOf(c, p, "include")
    case Some(Seq(items)) => NamesOf(items)
    case _ => []
  }

  /** Depth-first postorder from `p`, skipping what was seen: the profiles finished, and those seen then. */
  function Postorder(c: Config, p: string, seen: set<string>): (r: (seq<string>, set<string>))
    ensures seen <= r.1
    decreases Names(c) - seen, 0, 0
  {
    if p in seen then ([], seen)
    else if BodyOf(c, p).None? then ([], seen + {p})
    else
      NamedBody(c, p);
      var (order, seen') := PostorderAll(c, IncludeNames(c, p), seen + {p});
      (order + [p], seen')
  }

  /** The same from several profiles, left to right. */
  function PostorderAll(c: Config, ps: seq<string>, seen: set<string>): (r: (seq<string>, set<string>))
    ensures seen <= r.1
    decreases Names(c) - seen, 1, |ps|
  {
    if ps == [] then ([], seen)
    else
      var n := |ps| - 1;
      var (order, seen') := PostorderAll(c, ps[..n], seen);
      var (more, seen'') := Postorder(c, ps[n], seen');
      (order + more, seen'')
  }

  predicate Distinct(order: seq<string>) {
    forall i, j | 0 <= i < j < |order| :: order[i] != order[j]
  }

  function Elements(order: seq<string>): set<string> {
    set p | p in order
  }

  /** What holds between a walk's start, with `before` visited and `from` profiles finished, and now:
      the profiles finished since were not visited before, are reachable from `root`, have all their
      includes visited, and each include came earlier, was visited before, or leads back. */
  ghost predicate Walked(c: Config, root: string, before: set<string>, from: nat, order: seq<string>,
                         visited: set<string>)
  {
    && from <= |order| && before <= visited
    && (forall i | from <= i < |order| :: order[i] !in before && Reaches(c, root, order[i]))
    && (forall i, q | from <= i < |order| && Includes(c, order[i], q) :: q in visited)
    && (forall i, q | from <= i < |order| && Includes(c, order[i], q) ::
          q in before || q in order[..i] || Reaches(c, q, order[i]))
  }

  lemma WalkStarts(c: Config, root: string, before: set<string>, order: seq<string>, visited: set<string>)
    requires before <= visited
    ensures Walked(c, root, before, |order|, order, visited)
  {
  }

  /** A walk below an include of `root` is part of the walk of `root`. */
  lemma WalkJoins(c: Config, root: string, child: string, before: set<string>, from: nat,
                  order: seq<string>, visited: set<string>, order': seq<string>, visited': set<string>)
    requires Includes(c, root, child) && order <= order'
    requires Walked(c, root, before, from, order, visited)
    requires visited == before + {root} + Elements(order[from..]) && Elements(order[..from]) <= before
    requires Walked(c, child, visited, |order|, order', visited')
    ensures Walked(c, root, before, from, order', visited')
  {
    hide Includes, Reaches;
    forall i | from <= i < |order'| ensures order'[i] !in before && Reaches(c, root, order'[i]) {
      if i >= |order| { ReachesVia(c, root, child, order'[i]); }
    }
    forall i, q | from <= i < |order'| && Includes(c, order'[i], q)
      ensures q in visited' && (q in before || q in order'[..i] || Reaches(c, q, order'[i]))
    {
      if i < |order| {
        assert order'[..i] == order[..i];
      } else {
        ReachesVia(c, root, child, order'[i]);
        if q in visited && q !in before && q != root {
          assert q in order;
          assert q in order'[..i];
        }
      }
    }
  }

  /** Finishing `root` itself, once all its includes are visited. */
  lemma WalkEnds(c: Config, root: string, before: set<string>, from: nat, order: seq<string>, visited: set<string>)
    requires Walked(c, root, before, from, order, visited)
    requires visited == before + {root} + Elements(order[from..]) && Elements(order[..from]) <= before
    requires root !in before
    requires forall q | Includes(c, root, q) :: q in visited
    ensures Walked(c, root, before, from, order + [root], visited)
  {
    hide Includes, Reaches;
    ReachesSelf(c, root);
    var order' := order + [root];
    forall i, q | from <= i < |order'| && Includes(c, order'[i], q)
      ensures q in visited && (q in before || q in order'[..i] || Reaches(c, q, order'[i]))
    {
      if i < |order| {
        assert order'[..i] == order[..i];
      } else if q !in before && q != root {
        assert q in order && order'[..i] == order;
      }
    }
  }

  /** The problem an error reports is one the profile has. */
  predicate HasProblem(c: Config, p: string, problem: Problem) {
    match problem
    case NotAMapping => BodyOf(c, p).None?
    case IncludeNotArray => FieldOf(c, p, "include").Some? && !FieldOf(c, p, "include").value.Seq?
    case IncludeNotString =>
      && FieldOf(c, p, "include").Some? && FieldOf(c, p, "include").value.Seq?
      && var items := FieldOf(c, p, "include").value.items; exists i | 0 <= i < |items| :: !items[i].Str?
    case ProcsNotArray => GoodIncludes(c, p) && FieldOf(c, p, "procs").Some? && !FieldOf(c, p, "procs").value.Seq?
    case BadProc =>
      && GoodIncludes(c, p) && FieldOf(c, p, "procs").Some? && FieldOf(c, p, "procs").value.Seq?
      && var items := FieldOf(c, p, "procs").value.items; exists i | 0 <= i < |items| :: c.parseProc(items[i]).None?
  }

  lemma ProblemsAreBad(c: Config, p: string, problem: Problem)
    requires HasProblem(c, p, problem)
    ensures !GoodProfile(c, p)
  {
  }

  class Resolver {
    const config: Config
    var visited: set<string>
    var out: seq<ProcSpec>
    /** Profiles in the order in which they were finished. */
    ghost var order: seq<string>

    ghost predicate Valid()
      reads this
    {
      && Elements(order) <= visited && Distinct(order)
      && AllGood(config, order) && out == Collect(config, order)
    }

    constructor (config: Config)
      ensures this.config == config && visited == {} && order == [] && Valid()
    {
      this.config := config;
      visited, out, order := {}, [], [];
    }

    /** Collects the procs of `profile`, includes first, skipping what was visited. An error names a
        profile that cannot be read and is reachable from here. */
    method Resolve(profile: string) returns (r: Result<(), ProfileError>)
      requires Valid()
      modifies this
      decreases Names(config) - visited, 1
      ensures r.Ok? ==>
        && Valid() && old(order) <= order && profile in visited
        && visited == old(visited) + Elements(order[|old(order)|..])
        && Walked(config, profile, old(visited), |old(order)|, order, visited)
        && order == old(order) + Postorder(config, profile, old(visited)).0
        && visited == Postorder(config, profile, old(visited)).1
      ensures r.Err? ==> Reaches(config, profile, r.error.profile) && HasProblem(config, r.error.profile, r.error.problem)
    {
      hide AllGood, Collect, Includes, Reaches, Walked, Distinct, GoodProfile, Postorder, PostorderAll;
      ReachesSelf(config, profile);
      PostorderOf(config, profile, visited);
      if profile in visited {
        WalkStarts(config, profile, visited, order, visited);
        assert order[|order|..] == [];
        return Ok(());
      }
      visited := visited + {profile};
      var body := BodyOf(config, profile);
      if body.None? {
        NoBody(config, profile);
        return Err(ProfileError(profile, NotAMapping));
      }
      NamedBody(config, profile);
      r := ResolveIncludes(profile, body.value, old(visited));
      if r.Err? { return; }
      r := PushProcs(profile, body.value);
      if r.Err? { return; }
      WalkEnds(config, profile, old(visited), |old(order)|, order, visited);
      CollectSnoc(config, order, profile);
      DistinctSnoc(order, profile);
      assert (order + [profile])[|old(order)|..] == order[|old(order)|..] + [profile];
      order := order + [profile];
    }

    /** Walks every include of a profile whose walk is under way. */
    method ResolveIncludes(profile: string, body: seq<(Yaml, Yaml)>, ghost before: set<string>)
      returns (r: Result<(), ProfileError>)
      requires Valid() && BodyOf(config, profile) == Some(body)
      requires visited == before + {profile} && profile !in before && Elements(order) <= before
      modifies this
      decreases Names(config) - visited, 2
      ensures r.Ok? ==>
        && Valid() && old(order) <= order && profile !in order
        && visited == before + {profile} + Elements(order[|old(order)|..])
        && Walked(config, profile, before, |old(order)|, order, visited)
        && order == old(order) + PostorderAll(config, IncludeNames(config, profile), old(visited)).0
        && visited == PostorderAll(config, IncludeNames(config, profile), old(visited)).1
        && GoodIncludes(config, profile) && forall q | Includes(config, profile, q) :: q in visited
      ensures r.Err? ==> Reaches(config, profile, r.error.profile) && HasProblem(config, r.error.profile, r.error.problem)
    {
      hide AllGood, Collect, Reaches, Walked, Distinct, Postorder, PostorderAll, NamesOf;
      PostorderNone(config, old(visited));
      ReachesSelf(config, profile);
      WalkStarts(config, profile, before, order, visited);
      assert order[|order|..] == [];
      var includes := Get(body, "include");
      if includes.None? {
        return Ok(());
      }
      if !includes.value.Seq? {
        return Err(ProfileError(profile, IncludeNotArray));
      }
      var items := includes.value.items;
      for i := 0 to |items|
        invariant Valid() && old(order) <= order && profile !in order
        invariant visited == before + {profile} + Elements(order[|old(order)|..])
        invariant Walked(config, profile, before, |old(order)|, order, visited)
        invariant forall j | 0 <= j < i :: items[j].Str? && items[j].value in visited
        invariant order == old(order) + PostorderAll(config, NamesOf(items[..i]), old(visited)).0
        invariant visited == PostorderAll(config, NamesOf(items[..i]), old(visited)).1
      {
        if !items[i].Str? {
          return Err(ProfileError(profile, IncludeNotString));
        }
        var child := items[i].value;
        assert Includes(config, profile, child);
        ghost var order0, visited0 := order, visited;
        PostorderNext(config, items, i, old(visited));
        r := Resolve(child);
        if r.Err? {
          ReachesVia(config, profile, child, r.error.profile);
          return;
        }
        assert order[..|old(order)|] == old(order);
        assert order0[..|old(order)|] == old(order);
        WalkJoins(config, profile, child, before, |old(order)|, order0, visited0, order, visited);
        NewOnes(config, child, visited0, order0, order, visited, profile);
        ElementsJoin(order0, order, |old(order)|);
      }
      assert items[..|items|] == items;
      return Ok(());
    }

    method PushProcs(profile: string, body: seq<(Yaml, Yaml)>) returns (r: Result<(), ProfileError>)
      requires BodyOf(config, profile) == Some(body) && GoodIncludes(config, profile)
      modifies this`out
      ensures r.Ok? ==> GoodProfile(config, profile) && out == old(out) + ProcsOf(config, profile)
      ensures r.Err? ==> r.error.profile == profile && HasProblem(config, profile, r.error.problem)
    {
      hide GoodIncludes;
      var procs := Get(body, "procs");
      if procs.None? {
        return Ok(());
      }
      if !procs.value.Seq? {
        return Err(ProfileError(profile, ProcsNotArray));
      }
      var items := procs.value.items;
      for i := 0 to |items|
        invariant forall j | 0 <= j < i :: config.parseProc(items[j]).Some?
        invariant out == old(out) + ReadProcs(config, items[..i])
      {
        var spec := config.parseProc(items[i]);
        if spec.None? {
          return Err(ProfileError(profile, BadProc));
        }
        out := out + [spec.value];
      }
      assert items[..|items|] == items;
      return Ok(());
    }
  }

  lemma PostorderOf(c: Config, p: string, seen: set<string>)
    ensures p in seen ==> Postorder(c, p, seen) == ([], seen)
    ensures p !in seen && BodyOf(c, p).Some? ==>
              var (order, seen') := PostorderAll(c, IncludeNames(c, p), seen + {p});
              Postorder(c, p, seen) == (order + [p], seen')
  {
  }

  lemma PostorderNone(c: Config, seen: set<string>)
    ensures NamesOf([]) == [] && PostorderAll(c, [], seen) == ([], seen)
  {
  }

  lemma PostorderNext(c: Config, items: seq<Yaml>, i: nat, seen: set<string>)
    requires i < |items| && items[i].Str?
    ensures var (order, seen') := PostorderAll(c, NamesOf(items[..i]), seen);
            var (more, seen'') := Postorder(c, items[i].value, seen');
            PostorderAll(c, NamesOf(items[..i + 1]), seen) == (order + more, seen'')
  {
    assert NamesOf(items[..i + 1])[..i] == NamesOf(items[..i]);
  }

  lemma NoBody(c: Config, p: string)
    requires BodyOf(c, p).None?
    ensures !GoodProfile(c, p)
  {
  }

  /** Only declared profiles have a body, so every deeper walk has fewer profiles left to visit. */
  lemma NamedBody(c: Config, p: string)
    requires BodyOf(c, p).Some?
    ensures p in Names(c)
  {
    GetIsNamed(c.profiles, p);
  }

  lemma DistinctSnoc(order: seq<string>, p: string)
    requires Distinct(order) && p !in order
    ensures Distinct(order + [p])
  {
  }

  lemma NewOnes(c: Config, child: string, visited: set<string>, order: seq<string>, order': seq<string>,
                visited': set<string>, p: string)
    requires Walked(c, child, visited, |order|, order', visited') && order <= order'
    requires p in visited && p !in order
    ensures p !in order'
  {
    hide Includes, Reaches;
  }

  lemma ElementsJoin(order: seq<string>, order': seq<string>, from: nat)
    requires from <= |order| && order <= order'
    ensures Elements(order'[from..]) == Elements(order[from..]) + Elements(order'[|order|..])
  {
    assert order'[from..] == order[from..] + order'[|order|..];
  }

  // ── Names taken once ────────────────────────────────────────────────────────

  predicate NameTaken(specs: seq<ProcSpec>, name: string) {
    exists i | 0 <= i < |specs| :: specs[i].name == name
  }

  /** Positions of the specs whose name no earlier spec has. */
  function FirstPositions(specs: seq<ProcSpec>): (ps: seq<nat>)
    ensures forall i | 0 <= i < |ps| :: ps[i] < |specs|
  {
    if specs == [] then [] else
    var n := |specs| - 1;
    FirstPositions(specs[..n]) + if NameTaken(specs[..n], specs[n].name) then [] else [n]
  }

  function At(specs: seq<ProcSpec>, ps: seq<nat>): seq<ProcSpec>
    requires forall i | 0 <= i < |ps| :: ps[i] < |specs|
  {
    seq(|ps|, i requires 0 <= i < |ps| => specs[ps[i]])
  }

  /** The first spec of every name, in order. */
  function FirstByName(specs: seq<ProcSpec>): seq<ProcSpec> {
    At(specs, FirstPositions(specs))
  }

  /** The spec at `k` is the first of its name. */
  predicate FirstAt(specs: seq<ProcSpec>, k: nat)
    requires k < |specs|
  {
    !NameTaken(specs[..k], specs[k].name)
  }

  /** `s` is the first spec of its name. */
  predicate IsFirst(specs: seq<ProcSpec>, s: ProcSpec) {
    exists k | 0 <= k < |specs| :: specs[k] == s && FirstAt(specs, k)
  }

  lemma {:induction false} FirstPositionsMeaning(specs: seq<ProcSpec>)
    ensures forall i, j | 0 <= i < j < |FirstPositions(specs)| :: FirstPositions(specs)[i] < FirstPositions(specs)[j]
    ensures forall k | 0 <= k < |specs| :: k in FirstPositions(specs) <==> FirstAt(specs, k)
  {
    hide NameTaken;
    if specs == [] {
    } else {
      var n := |specs| - 1;
      var init := FirstPositions(specs[..n]);
      FirstPositionsMeaning(specs[..n]);
      assert FirstPositions(specs) == init + if FirstAt(specs, n) then [n] else [];
      forall k | 0 <= k < |specs| ensures k in FirstPositions(specs) <==> FirstAt(specs, k) {
        if k < n {
          assert specs[..n][..k] == specs[..k];
          assert FirstAt(specs[..n], k) == FirstAt(specs, k);
        } else {
          assert n !in init;
        }
      }
    }
  }

  /** `kept` is what stands at the ascending positions `ps`. */
  predicate TakenAt(specs: seq<ProcSpec>, ps: seq<nat>, kept: seq<ProcSpec>) {
    && |ps| == |kept|
    && (forall i, j | 0 <= i < j < |ps| :: ps[i] < ps[j])
    && forall i | 0 <= i < |ps| :: ps[i] < |specs| && kept[i] == specs[ps[i]]
  }

  /** `kept` is a subsequence. */
  ghost predicate InOrder(specs: seq<ProcSpec>, kept: seq<ProcSpec>) {
    exists ps :: TakenAt(specs, ps, kept)
  }

  /** After deduplication names are unique, every name that occurred still does, and the survivors are
      exactly the first of each name, in the original order. */
  lemma FirstByNameMeaning(specs: seq<ProcSpec>)
    ensures forall i, j | 0 <= i < j < |FirstByName(specs)| :: FirstByName(specs)[i].name != FirstByName(specs)[j].name
    ensures forall k | 0 <= k < |specs| :: NameTaken(FirstByName(specs), specs[k].name)
    ensures forall s :: s in FirstByName(specs) <==> IsFirst(specs, s)
    ensures InOrder(specs, FirstByName(specs))
  {
    FirstPositionsMeaning(specs);
    assert TakenAt(specs, FirstPositions(specs), FirstByName(specs));
    hide FirstPositions;
    var ps, r := FirstPositions(specs), FirstByName(specs);
    forall i, j | 0 <= i < j < |r| ensures r[i].name != r[j].name {
      var k := ps[j];
      assert k in ps && specs[..k][ps[i]] == specs[ps[i]];
    }
    forall k | 0 <= k < |specs| ensures NameTaken(r, specs[k].name) {
      var first := FirstOf(specs, k);
      assert first in ps;
      var i :| 0 <= i < |ps| && ps[i] == first;
      assert r[i].name == specs[k].name;
    }
    FirstsAreKept(specs, ps);
  }

  lemma FirstsAreKept(specs: seq<ProcSpec>, ps: seq<nat>)
    requires forall i | 0 <= i < |ps| :: ps[i] < |specs|
    requires forall k | 0 <= k < |specs| :: k in ps <==> FirstAt(specs, k)
    ensures forall s :: s in At(specs, ps) <==> IsFirst(specs, s)
  {
    hide FirstAt;
    var r := At(specs, ps);
    forall s ensures s in r <==> IsFirst(specs, s) {
      if s in r {
        var i :| 0 <= i < |r| && r[i] == s;
        assert ps[i] in ps && specs[ps[i]] == s;
      }
      if IsFirst(specs, s) {
        var k :| 0 <= k < |specs| && specs[k] == s && FirstAt(specs, k);
        assert k in ps;
        var i :| 0 <= i < |ps| && ps[i] == k;
        assert r[i] == s;
      }
    }
  }

  lemma {:induction false} FirstOf(specs: seq<ProcSpec>, k: nat) returns (first: nat)
    requires k < |specs|
    ensures first <= k && specs[first].name == specs[k].name && FirstAt(specs, first)
    decreases k
  {
    if NameTaken(specs[..k], specs[k].name) {
      var i :| 0 <= i < k && specs[..k][i].name == specs[k].name;
      first := FirstOf(specs, i);
    } else {
      first := k;
    }
  }

  /** `retain` with a set of names already seen. */
  method Dedup(specs: seq<ProcSpec>) returns (kept: seq<ProcSpec>)
    ensures kept == FirstByName(specs)
  {
    kept := [];
    var seen: set<string> := {};
    for i := 0 to |specs|
      invariant kept == FirstByName(specs[..i])
      invariant forall name :: name in seen <==> NameTaken(specs[..i], name)
    {
      assert specs[..i + 1] == specs[..i] + [specs[i]];
      DedupStep(specs[..i], specs[i]);
      if specs[i].name !in seen {
        seen := seen + {specs[i].name};
        kept := kept + [specs[i]];
      }
    }
    assert specs[..|specs|] == specs;
  }

  lemma DedupStep(specs: seq<ProcSpec>, s: ProcSpec)
    ensures FirstByName(specs + [s]) == FirstByName(specs) + if NameTaken(specs, s.name) then [] else [s]
    ensures forall name :: NameTaken(specs + [s], name) <==> NameTaken(specs, name) || name == s.name
  {
    var all := specs + [s];
    assert all[..|specs|] == specs;
    forall name ensures NameTaken(all, name) <==> NameTaken(specs, name) || name == s.name {
      if NameTaken(specs, name) {
        var i :| 0 <= i < |specs| && specs[i].name == name;
        assert all[i].name == name;
      }
      assert all[|specs|].name == s.name;
    }
  }

  // ── Parsing ─────────────────────────────────────────────────────────────────

  /** The `profiles` mapping of a document. */
  function ProfilesOf(doc: Yaml): Option<seq<(Yaml, Yaml)>> {
    match doc
    case Map(entries) =>
      (match Get(entries, "profiles")
       case Some(Map(profiles)) => Some(profiles)
       case _ => None)
    case _ => None
  }

  /** The procs of a profile. It succeeds exactly when the profile is declared and every profile
      reachable from it can be read; then it has visited exactly the reachable profiles, each once, in
      depth-first postorder: every include before the profile that includes it except where the
      includes form a cycle. */
  method Parse(doc: Yaml, parseProc: Yaml -> Option<ProcSpec>, profile: string)
    returns (r: Result<seq<ProcSpec>, ConfigError>, ghost order: seq<string>)
    ensures r.Ok? <==>
      && ProfilesOf(doc).Some? && Get(ProfilesOf(doc).value, profile).Some?
      && forall q | Reaches(Config(ProfilesOf(doc).value, parseProc), profile, q) ::
           GoodProfile(Config(ProfilesOf(doc).value, parseProc), q)
    ensures r == Err(NoProfiles) <==> ProfilesOf(doc).None?
    ensures r == Err(UnknownProfile(profile)) <==> ProfilesOf(doc).Some? && Get(ProfilesOf(doc).value, profile).None?
    ensures r.Err? && r.error.BadProfile? ==>
      var c := Config(ProfilesOf(doc).value, parseProc);
      && Reaches(c, profile, r.error.error.profile)
      && HasProblem(c, r.error.error.profile, r.error.error.problem)
    ensures r.Ok? ==>
      var c := Config(ProfilesOf(doc).value, parseProc);
      && order == Postorder(c, profile, {}).0
      && Distinct(order) && AllGood(c, order)
      && (forall q :: q in order <==> Reaches(c, profile, q))
      && (forall i, q | 0 <= i < |order| && Includes(c, order[i], q) :: q in order[..i] || Reaches(c, q, order[i]))
      && r.value == FirstByName(Collect(c, order))
  {
    hide Includes, Reaches, GoodProfile, Collect, FirstByName;
    order := [];
    var profiles := ProfilesOf(doc);
    if profiles.None? {
      return Err(NoProfiles), [];
    }
    var c := Config(profiles.value, parseProc);
    if Get(profiles.value, profile).None? {
      return Err(UnknownProfile(profile)), [];
    }
    var walk := new Resolver(c);
    var resolved := walk.Resolve(profile);
    if resolved.Err? {
      ProblemsAreBad(c, resolved.error.profile, resolved.error.problem);
      return Err(BadProfile(resolved.error)), [];
    }
    order := walk.order;
    assert order[0..] == order;
    WholeWalk(c, profile, order, walk.visited);
    GoodMembers(c, order);
    var specs := Dedup(walk.out);
    r := Ok(specs);
  }

  /** A walk that started with nothing visited has finished exactly the reachable profiles. */
  lemma WholeWalk(c: Config, root: string, order: seq<string>, visited: set<string>)
    requires Walked(c, root, {}, 0, order, visited) && visited == Elements(order) && root in visited
    ensures forall q :: q in order <==> Reaches(c, root, q)
    ensures forall i, q | 0 <= i < |order| && Includes(c, order[i], q) :: q in order[..i] || Reaches(c, q, order[i])
  {
    hide Includes, Reaches;
    assert Closed(c, visited) by {
      forall p, q | p in visited && Includes(c, p, q) ensures q in visited {
        var i :| 0 <= i < |order| && order[i] == p;
      }
    }
    forall q ensures q in order <==> Reaches(c, root, q) {
      if Reaches(c, root, q) {
        ReachedIsInside(c, visited, root, q);
      }
    }
  }

  lemma GoodMembers(c: Config, order: seq<string>)
    requires AllGood(c, order)
    ensures forall q | q in order :: GoodProfile(c, q)
  {
    hide GoodProfile;
  }
}
