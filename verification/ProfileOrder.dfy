/** The order in which a resolution collects: fields of a profile, procs of one profile, and profiles. */
module ProfileOrder {
  import opened Prelude
  import opened Profiles

  // ── Fields and procs ────────────────────────────────────────────────────────

  predicate FirstWith(entries: seq<(Yaml, Yaml)>, key: string, i: nat)
    requires i < |entries|
  {
    entries[i].0 == Str(key) && forall j | 0 <= j < i :: entries[j].0 != Str(key)
  }

  /** A field is the value of the first entry with its key. */
  lemma {:induction false} GetMeans(entries: seq<(Yaml, Yaml)>, key: string)
    ensures match Get(entries, key)
            case Some(value) => exists i | 0 <= i < |entries| :: FirstWith(entries, key, i) && entries[i].1 == value
            case None => forall i | 0 <= i < |entries| :: entries[i].0 != Str(key)
  {
    if entries == [] {
    } else if entries[0].0 == Str(key) {
      assert FirstWith(entries, key, 0);
    } else {
      var rest := entries[1..];
      GetMeans(rest, key);
      if Get(rest, key).Some? {
        var i :| 0 <= i < |rest| && FirstWith(rest, key, i) && rest[i].1 == Get(rest, key).value;
        assert forall j | 0 < j < |entries| :: entries[j] == rest[j - 1];
        assert FirstWith(entries, key, i + 1);
      }
    }
  }

  /** The procs of one profile are its list, entry by entry. */
  lemma ProcsInOrder(c: Config, p: string, items: seq<Yaml>)
    requires GoodProfile(c, p) && FieldOf(c, p, "procs") == Some(Seq(items))
    ensures |ProcsOf(c, p)| == |items|
    ensures forall i | 0 <= i < |items| :: Some(ProcsOf(c, p)[i]) == c.parseProc(items[i])
  {
  }

  /** The procs of several profiles stand one profile after the other. */
  lemma {:induction false} CollectConcat(c: Config, a: seq<string>, b: seq<string>)
    requires AllGood(c, a) && AllGood(c, b)
    ensures AllGood(c, a + b) && Collect(c, a + b) == Collect(c, a) + Collect(c, b)
  {
    hide GoodProfile, Collect;
    if b == [] {
      assert a + b == a;
      CollectNone(c);
    } else {
      var n := |b| - 1;
      CollectConcat(c, a, b[..n]);
      CollectSnoc(c, a + b[..n], b[n]);
      CollectSnoc(c, b[..n], b[n]);
      assert a + b == a + b[..n] + [b[n]] && b == b[..n] + [b[n]];
    }
  }

  lemma CollectNone(c: Config)
    ensures Collect(c, []) == []
  {
  }

  lemma CollectOne(c: Config, p: string)
    requires GoodProfile(c, p)
    ensures Collect(c, [p]) == ProcsOf(c, p)
  {
    assert [p][..0] == [];
  }

  // ── Profiles ────────────────────────────────────────────────────────────────

  predicate Readable(c: Config, q: string) {
    BodyOf(c, q).Some? && GoodIncludes(c, q)
  }

  ghost predicate FromSome(c: Config, ps: seq<string>, q: string) {
    exists h | 0 <= h < |ps| :: Reaches(c, ps[h], q)
  }

  lemma FromSomeGrows(c: Config, ps: seq<string>, n: nat, q: string)
    requires n <= |ps| && FromSome(c, ps[..n], q)
    ensures FromSome(c, ps, q)
  {
    hide Reaches;
    var h :| 0 <= h < n && Reaches(c, ps[..n][h], q);
    assert Reaches(c, ps[h], q);
  }

  lemma FromIncludes(c: Config, p: string, q: string)
    requires FromSome(c, IncludeNames(c, p), q) && GoodIncludes(c, p)
    ensures Reaches(c, p, q)
  {
    hide Reaches;
    var names := IncludeNames(c, p);
    var h :| 0 <= h < |names| && Reaches(c, names[h], q);
    assert Includes(c, p, names[h]);
    ReachesVia(c, p, names[h], q);
  }

  /** A walk finishes what it sees for the first time, and only what it reaches. */
  lemma {:induction false} WalkFinishes(c: Config, p: string, seen: set<string>)
    requires forall q | Reaches(c, p, q) :: Readable(c, q)
    ensures var (order, seen') := Postorder(c, p, seen);
            && seen' == seen + Elements(order) && p in seen' && forall q | q in order :: Reaches(c, p, q)
    decreases Names(c) - seen, 0, 0
  {
    hide Reaches, Postorder, PostorderAll, GoodIncludes;
    ReachesSelf(c, p);
    PostorderOf(c, p, seen);
    if p !in seen {
      NamedBody(c, p);
      var names := IncludeNames(c, p);
      forall q | FromSome(c, names, q) ensures Reaches(c, p, q) {
        FromIncludes(c, p, q);
      }
      WalksFinish(c, names, seen + {p});
    }
  }

  lemma {:induction false} WalksFinish(c: Config, ps: seq<string>, seen: set<string>)
    requires forall q | FromSome(c, ps, q) :: Readable(c, q)
    ensures var (order, seen') := PostorderAll(c, ps, seen);
            && seen' == seen + Elements(order) && (forall q | q in order :: FromSome(c, ps, q))
            && forall h | 0 <= h < |ps| :: ps[h] in seen'
    decreases Names(c) - seen, 1, |ps|
  {
    hide Reaches, Postorder, PostorderAll, Readable;
    WalksUnfold(c, ps, seen);
    if ps != [] {
      var n := |ps| - 1;
      FromParts(c, ps);
      var (order, seen') := PostorderAll(c, ps[..n], seen);
      WalksFinish(c, ps[..n], seen);
      WalkFinishes(c, ps[n], seen');
      hide FromSome, Elements;
      var (more, seen'') := Postorder(c, ps[n], seen');
      ElementsConcat(order, more);
      assert forall h | 0 <= h < n :: ps[..n][h] == ps[h];
    }
  }

  lemma ElementsConcat(a: seq<string>, b: seq<string>)
    ensures Elements(a + b) == Elements(a) + Elements(b)
  {
  }

  lemma FromParts(c: Config, ps: seq<string>)
    requires ps != []
    ensures forall q :: FromSome(c, ps, q) <==> FromSome(c, ps[..|ps| - 1], q) || Reaches(c, ps[|ps| - 1], q)
  {
    hide Reaches;
    var n := |ps| - 1;
    forall q ensures FromSome(c, ps, q) <==> FromSome(c, ps[..n], q) || Reaches(c, ps[n], q) {
      if FromSome(c, ps[..n], q) {
        FromSomeGrows(c, ps, n, q);
      }
      if FromSome(c, ps, q) && !Reaches(c, ps[n], q) {
        var h :| 0 <= h < |ps| && Reaches(c, ps[h], q);
        assert ps[..n][h] == ps[h];
      }
    }
  }

  lemma WalksUnfold(c: Config, ps: seq<string>, seen: set<string>)
    ensures ps == [] ==> PostorderAll(c, ps, seen) == ([], seen)
    ensures ps != [] ==>
              var (order, seen') := PostorderAll(c, ps[..|ps| - 1], seen);
              var (more, seen'') := Postorder(c, ps[|ps| - 1], seen');
              PostorderAll(c, ps, seen) == (order + more, seen'')
  {
  }

  lemma {:induction false} WalksExtend(c: Config, ps: seq<string>, n: nat, seen: set<string>)
    requires n <= |ps|
    ensures PostorderAll(c, ps[..n], seen).0 <= PostorderAll(c, ps, seen).0
    decreases |ps|
  {
    hide Postorder, PostorderAll;
    if n == |ps| {
      assert ps[..n] == ps;
    } else {
      WalksUnfold(c, ps, seen);
      WalksExtend(c, ps[..|ps| - 1], n, seen);
      assert ps[..|ps| - 1][..n] == ps[..n];
    }
  }

  /** An include of the profile that is asked for is finished before anything that is reached only from
      includes listed behind it. */
  lemma ListedOrder(c: Config, p: string, i: nat) returns (k: nat)
    requires (forall q | Reaches(c, p, q) :: Readable(c, q)) && i < |IncludeNames(c, p)| && IncludeNames(c, p)[i] != p
    ensures var order, names := Postorder(c, p, {}).0, IncludeNames(c, p);
            && k < |order| && order[k] == names[i]
            && forall m | 0 <= m < k :: FromSome(c, names[..i + 1], order[m])
  {
    hide Reaches, Postorder, PostorderAll;
    var names := IncludeNames(c, p);
    var some := names[..i + 1];
    ReachesSelf(c, p);
    forall q | FromSome(c, some, q) ensures Reaches(c, p, q) {
      FromSomeGrows(c, names, i + 1, q);
      FromIncludes(c, p, q);
    }
    hide Readable;
    WalksFinish(c, some, {p});
    WalksExtend(c, names, i + 1, {p});
    var part := PostorderAll(c, some, {p}).0;
    assert some[i] == names[i] && names[i] in part;
    k :| 0 <= k < |part| && part[k] == names[i];
    PostorderOf(c, p, {});
    assert {} + {p} == {p} && BodyOf(c, p).Some?;
    assert forall m | 0 <= m < |part| :: part[m] == Postorder(c, p, {}).0[m];
  }
}
