/** Following a version through the jobs of its chain (chainWalkBuilds,
    pikoci/version_path.go:204-267). */
module VersionPath {
  import opened Wrappers
  import opened Reachability
  import opened Collections

  type VersionId = nat
  type BuildId = nat

  /** `byVersion[v][j]`: the builds of job j that used version v; a version that is
      not there makes the query fail.  `gets[b]`: the versions build b used or made;
      a build that is not there is skipped. */
  datatype Db = Db(byVersion: map<VersionId, map<string, seq<BuildId>>>, gets: map<BuildId, set<VersionId>>)

  function BuildsFor(db: Db, v: VersionId, j: string): seq<BuildId> {
    if v in db.byVersion && j in db.byVersion[v] then db.byVersion[v][j] else []
  }

  function VersionsOf(db: Db, b: BuildId): set<VersionId> {
    if b in db.gets then db.gets[b] else {}
  }

  // ----- how versions hang together

  /** Some build of a chain job used `v` and carries `w`. */
  ghost predicate Carries(db: Db, chain: seq<string>, v: VersionId, w: VersionId) {
    exists j, b :: j in chain && v in db.byVersion && j in db.byVersion[v] && b in db.byVersion[v][j]
      && b in db.gets && w in db.gets[b]
  }

  ghost predicate Trail(db: Db, chain: seq<string>, t: seq<VersionId>) {
    t != [] && forall i :: 0 <= i < |t| - 1 ==> Carries(db, chain, t[i], t[i + 1])
  }

  ghost predicate Linked(db: Db, chain: seq<string>, v: VersionId, w: VersionId) {
    exists t :: Trail(db, chain, t) && t[0] == v && t[|t| - 1] == w
  }

  lemma LinkedSelf(db: Db, chain: seq<string>, v: VersionId)
    ensures Linked(db, chain, v, v)
  {
    assert Trail(db, chain, [v]) && [v][0] == v;
  }

  lemma LinkedOn(db: Db, chain: seq<string>, u: VersionId, v: VersionId, w: VersionId)
    requires Linked(db, chain, u, v) && Carries(db, chain, v, w)
    ensures Linked(db, chain, u, w)
  {
    hide Carries;
    var t :| Trail(db, chain, t) && t[0] == u && t[|t| - 1] == v;
    var s := t + [w];
    assert forall i :: 0 <= i < |s| - 1 ==> Carries(db, chain, s[i], s[i + 1]);
    assert Trail(db, chain, s) && s[0] == u && s[|s| - 1] == w;
  }

  // ----- the walk

  type Found = map<string, seq<BuildId>>

  /** Job `j` was found through version `v`. */
  ghost predicate FoundBy(db: Db, found: Found, j: string, v: VersionId) {
    j in found && found[j] != [] && v in db.byVersion && j in db.byVersion[v] && found[j] == db.byVersion[v][j]
  }

  /** Everything found hangs on the tracked version. */
  ghost predicate Sound(db: Db, chain: seq<string>, start: VersionId, found: Found, seen: set<VersionId>) {
    && (forall j :: j in found ==> j in chain && exists v :: v in seen && FoundBy(db, found, j, v))
    && (forall v :: v in seen ==> Linked(db, chain, start, v))
  }

  /** No chain job left out has a build with one of these versions. */
  ghost predicate NothingMissed(db: Db, chain: seq<string>, found: Found, versions: set<VersionId>) {
    forall j, v :: j in chain && j !in found && v in versions && v in db.byVersion && j in db.byVersion[v] ==>
      db.byVersion[v][j] == []
  }

  /** All versions of all builds found were followed. */
  ghost predicate Followed(db: Db, found: Found, seen: set<VersionId>) {
    forall j, b :: j in found && b in found[j] && b in db.gets ==> db.gets[b] <= seen
  }

  lemma FoundGrows(db: Db, chain: seq<string>, start: VersionId, found: Found, seen: set<VersionId>, v: VersionId,
                   j: string)
    requires Sound(db, chain, start, found, seen) && v in seen && j in chain && j !in found && BuildsFor(db, v, j) != []
    ensures Sound(db, chain, start, found[j := BuildsFor(db, v, j)], seen)
  {
    hide Linked;
    var more := found[j := BuildsFor(db, v, j)];
    forall k | k in more ensures k in chain && exists u :: u in seen && FoundBy(db, more, k, u) {
      if k == j { assert FoundBy(db, more, j, v); }
      else { var u :| u in seen && FoundBy(db, found, k, u); assert FoundBy(db, more, k, u); }
    }
  }

  /** One version: every uncovered job with a build for it is covered. */
  method Cover(db: Db, chain: seq<string>, ghost start: VersionId, found0: Found, ghost seen: set<VersionId>,
               v: VersionId)
    returns (found: Found, newIds: seq<BuildId>)
    requires Sound(db, chain, start, found0, seen) && v in seen
    ensures Sound(db, chain, start, found, seen) && found0.Keys <= found.Keys
    ensures forall j :: j in found0 ==> found[j] == found0[j]
    ensures NothingMissed(db, chain, found, {v})
    ensures forall b :: b in newIds <==> exists j :: j in found && j !in found0 && b in found[j]
    ensures found.Keys == found0.Keys ==> newIds == []
  {
    hide Sound;
    found, newIds := found0, [];
    for i := 0 to |chain|
      invariant Sound(db, chain, start, found, seen) && found0.Keys <= found.Keys
      invariant forall j :: j in found0 ==> found[j] == found0[j]
      invariant forall k :: 0 <= k < i && chain[k] !in found ==> BuildsFor(db, v, chain[k]) == []
      invariant forall b :: b in newIds <==> exists j :: j in found && j !in found0 && b in found[j]
      invariant found.Keys == found0.Keys ==> newIds == []
    {
      var j := chain[i];
      var builds := BuildsFor(db, v, j);
      if j !in found && |builds| > 0 {
        FoundGrows(db, chain, start, found, seen, v, j);
        ghost var was := found;
        found, newIds := found[j := builds], newIds + builds;
        forall b ensures b in newIds <==> exists k :: k in found && k !in found0 && b in found[k] {
          if b in builds { assert j in found && j !in found0 && b in found[j]; }
          if k :| k in was && k !in found0 && b in was[k] { assert found[k] == was[k]; }
        }
      }
    }
  }

  /** One round of queries over the pending versions. */
  method CoverAll(db: Db, chain: seq<string>, ghost start: VersionId, found0: Found, ghost seen: set<VersionId>,
                  pending: seq<VersionId>)
    returns (ok: bool, found: Found, newIds: seq<BuildId>)
    requires Sound(db, chain, start, found0, seen) && forall v :: v in pending ==> v in seen
    ensures ok <==> forall v :: v in pending ==> v in db.byVersion
    ensures ok ==> Sound(db, chain, start, found, seen) && found0.Keys <= found.Keys
    ensures ok ==> forall j :: j in found0 ==> found[j] == found0[j]
    ensures ok ==> NothingMissed(db, chain, found, set v | v in pending)
    ensures ok ==> forall b :: b in newIds <==> exists j :: j in found && j !in found0 && b in found[j]
    ensures ok && found.Keys == found0.Keys ==> newIds == []
  {
    hide Sound, BuildsFor;
    found, newIds := found0, [];
    for i := 0 to |pending|
      invariant forall k :: 0 <= k < i ==> pending[k] in db.byVersion
      invariant Sound(db, chain, start, found, seen) && found0.Keys <= found.Keys
      invariant forall j :: j in found0 ==> found[j] == found0[j]
      invariant NothingMissed(db, chain, found, set v | v in pending[..i])
      invariant forall b :: b in newIds <==> exists j :: j in found && j !in found0 && b in found[j]
      invariant found.Keys == found0.Keys ==> newIds == []
    {
      if pending[i] !in db.byVersion { assert pending[i] in pending; return false, found, newIds; }
      ghost var was := found;
      var more;
      found, more := Cover(db, chain, start, found, seen, pending[i]);
      NewIdsAdd(found0, was, found, newIds, more);
      newIds := newIds + more;
      assert pending[..i + 1] == pending[..i] + [pending[i]];
    }
    assert pending[..|pending|] == pending;
    ok := true;
  }

  lemma NewIdsAdd(a: Found, b: Found, c: Found, ids: seq<BuildId>, more: seq<BuildId>)
    requires a.Keys <= b.Keys <= c.Keys && forall j :: j in b ==> c[j] == b[j]
    requires forall x :: x in ids <==> exists j :: j in b && j !in a && x in b[j]
    requires forall x :: x in more <==> exists j :: j in c && j !in b && x in c[j]
    ensures forall x :: x in ids + more <==> exists j :: j in c && j !in a && x in c[j]
  {
    forall x ensures x in ids + more <==> exists j :: j in c && j !in a && x in c[j] {
      if x in ids { var j :| j in b && j !in a && x in b[j]; assert x in c[j]; }
      if x in more { var j :| j in c && j !in b && x in c[j]; assert j !in a; }
    }
  }

  lemma BuildCarries(db: Db, chain: seq<string>, start: VersionId, found: Found, seen: set<VersionId>, b: BuildId,
                     w: VersionId)
    requires Sound(db, chain, start, found, seen) && w in VersionsOf(db, b)
    requires exists j :: j in found && b in found[j]
    ensures Linked(db, chain, start, w)
  {
    hide Linked;
    var j :| j in found && b in found[j];
    var v :| v in seen && FoundBy(db, found, j, v);
    assert b in BuildsFor(db, v, j);
    assert Carries(db, chain, v, w);
    LinkedOn(db, chain, start, v, w);
  }

  /** The versions of the new builds that were not seen before. */
  method Spread(db: Db, chain: seq<string>, ghost start: VersionId, ghost found: Found, newIds: seq<BuildId>,
                seen0: set<VersionId>)
    returns (pending: seq<VersionId>, seen: set<VersionId>)
    requires Sound(db, chain, start, found, seen0)
    requires forall b :: b in newIds ==> exists j :: j in found && b in found[j]
    ensures Sound(db, chain, start, found, seen) && seen == seen0 + set v | v in pending
    ensures forall b :: b in newIds ==> VersionsOf(db, b) <= seen
    ensures newIds == [] ==> pending == []
  {
    hide Sound, VersionsOf, Linked;
    pending, seen := [], seen0;
    for i := 0 to |newIds|
      invariant seen == seen0 + set v | v in pending
      invariant forall k :: 0 <= k < i ==> VersionsOf(db, newIds[k]) <= seen
      invariant forall v :: v in pending ==> Linked(db, chain, start, v)
      invariant i == 0 ==> pending == []
    {
      var b := newIds[i];
      var todo := VersionsOf(db, b);
      assert b in newIds;
      forall w | w in todo ensures Linked(db, chain, start, w) { BuildCarries(db, chain, start, found, seen0, b, w); }
      while todo != {}
        invariant todo <= VersionsOf(db, b)
        invariant seen == seen0 + set v | v in pending
        invariant forall k :: 0 <= k < i ==> VersionsOf(db, newIds[k]) <= seen
        invariant VersionsOf(db, b) <= seen + todo
        invariant forall v :: v in pending ==> Linked(db, chain, start, v)
      {
        var w :| w in todo;
        if w !in seen { seen, pending := seen + {w}, pending + [w]; }
        todo := todo - {w};
      }
    }
    SeenGrows(db, chain, start, found, seen0, seen);
  }

  lemma SeenGrows(db: Db, chain: seq<string>, start: VersionId, found: Found, seen: set<VersionId>,
                  more: set<VersionId>)
    requires Sound(db, chain, start, found, seen) && seen <= more
    requires forall v :: v in more - seen ==> Linked(db, chain, start, v)
    ensures Sound(db, chain, start, found, more)
  {
    hide Linked, FoundBy;
    forall j | j in found ensures j in chain && exists v :: v in more && FoundBy(db, found, j, v) {
      var v :| v in seen && FoundBy(db, found, j, v);
      assert v in more;
    }
  }

  ghost predicate AllCovered(chain: seq<string>, found: Found) { forall j :: j in chain ==> j in found }

  lemma CoveredByCount(chain: seq<string>, found: Found)
    requires (forall j :: j in found ==> j in chain) && |found.Keys| >= |chain|
    ensures AllCovered(chain, found)
  {
    ElementsCount(chain);
    SubsetSize(found.Keys, Elements(chain));
  }

  /** Every build listed hangs on the tracked version; and a chain job is left out
      only if no version carried by the listed builds was used by it. */
  method ChainWalkBuilds(db: Db, version: VersionId, chain: seq<string>)
    returns (r: Option<Found>, ghost seen: set<VersionId>)
    ensures r.Some? ==> Sound(db, chain, version, r.value, seen) && version in seen
    ensures r.Some? ==> NothingMissed(db, chain, r.value, seen)
    ensures r.Some? ==> AllCovered(chain, r.value) || Followed(db, r.value, seen)
    ensures r.None? ==> exists v :: v !in db.byVersion && Linked(db, chain, version, v)
  {
    hide Linked, BuildsFor, VersionsOf, FoundBy;
    var found: Found := map[];
    var pending, known := [version], {version};
    LinkedSelf(db, chain, version);
    ghost var jobs := Elements(chain);
    while pending != [] && |found.Keys| < |chain|
      invariant version in known && (forall v :: v in pending ==> v in known) && found.Keys <= jobs
      invariant Sound(db, chain, version, found, known)
      invariant NothingMissed(db, chain, found, known - set v | v in pending)
      invariant Followed(db, found, known)
      decreases jobs - found.Keys, |pending|
    {
      if forall j | j in chain :: j in found { break; }
      ghost var was, before := found, known;
      var ok, more, newIds := CoverAll(db, chain, version, found, known, pending);
      if !ok {
        return None, known;
      }
      found := more;
      pending, known := Spread(db, chain, version, found, newIds, known);
      RoundFollows(db, was, found, newIds, before, known);
    }
    if pending != [] && |found.Keys| >= |chain| { CoveredByCount(chain, found); }
    seen := known;
    return Some(found), seen;
  }

  lemma RoundFollows(db: Db, was: Found, found: Found, newIds: seq<BuildId>, seen: set<VersionId>, more: set<VersionId>)
    requires Followed(db, was, seen) && seen <= more && was.Keys <= found.Keys
    requires forall j :: j in was ==> found[j] == was[j]
    requires forall b :: b in newIds <==> exists j :: j in found && j !in was && b in found[j]
    requires forall b :: b in newIds ==> VersionsOf(db, b) <= more
    ensures Followed(db, found, more)
  {
    forall j, b | j in found && b in found[j] && b in db.gets ensures db.gets[b] <= more {
      if j in was { assert db.gets[b] <= seen; } else { assert b in newIds && VersionsOf(db, b) == db.gets[b]; }
    }
  }
}
