/** The reconstruction step of the undelete tool (UndeleteAction.Worker.run): for every
    requested primitive id that the history download found, rebuild the primitive from
    its version history and add it to the edit layer. The history, the layer's data set
    and the server's answers are plain values; Step and Process state the procedure as
    functions, and class Worker performs it in place, proved to agree with them. */
module Undelete {
  import opened Osm

  type User = string

  /** A timestamp, carried as an opaque value. */
  type Instant = int

  /** Node coordinates, carried as an opaque value (no arithmetic is done on them). */
  datatype LatLon = LatLon(lat: real, lon: real)

  type Tags = map<string, string>

  /** A member of a historic relation version (RelationMemberData). */
  datatype MemberData = MemberData(role: string, memberType: PrimType, memberId: int)

  /** One historic version of a primitive (HistoryOsmPrimitive with the parts of
      HistoryNode, HistoryWay and HistoryRelation): coords for nodes, node ids for ways,
      members for relations. */
  datatype HistVersion = HistVersion(
    version: int, visible: bool, changeset: int, instant: Instant, user: User, tags: Tags,
    coords: Option<LatLon>, nodes: seq<int>, members: seq<MemberData>)

  /** The History of one primitive: what getLatest() replies and the versions getByVersion
      finds (a version the server withholds, for instance a redacted one, is absent). */
  datatype History = History(latest: HistVersion, byVersion: map<int, HistVersion>)

  /** A RelationMember of a rebuilt relation: its role and the member's id. */
  datatype Member = Member(role: string, member: PrimId)

  /** An OsmPrimitive of the edit layer, reduced to the fields this procedure reads or writes. */
  datatype Prim = Prim(
    pid: PrimId, version: int, changeset: int, instant: Option<Instant>, user: Option<User>,
    visible: bool, tags: Tags, modified: bool, coords: Option<LatLon>, members: seq<Member>)

  /** The nested undelete of a rebuilt way's nodes: the worker submits it, with the way as
      parent, and it runs later as a task of its own. */
  datatype Request = Request(parentWay: PrimId, nodeIds: seq<PrimId>)

  const TwoTo31: int := 0x8000_0000
  const TwoTo32: int := 0x1_0000_0000

  /** The Java cast (int) of a long: the low 32 bits, read as two's complement. */
  function ToInt32(x: int): (r: int)
    ensures -TwoTo31 <= r < TwoTo31
    ensures (r - x) % TwoTo32 == 0
    ensures -TwoTo31 <= x < TwoTo31 ==> r == x
  {
    (x + TwoTo31) % TwoTo32 - TwoTo31
  }

  /** new Node/Way/Relation(id, version): an object that is not yet modified, with the
      defaults of the host for every other field. */
  function NewPrimitive(pid: PrimId, version: int): Prim
  {
    Prim(pid, version, 0, None, None, true, map[], false, None, [])
  }

  /** new Node/Way/Relation(id): the placeholder created for a relation member that is
      not in the layer. */
  function Placeholder(pid: PrimId): Prim
  {
    NewPrimitive(pid, 0)
  }

  /** A node loaded from its (visible) latest version: every field comes from that version. */
  function Loaded(pid: PrimId, h: HistVersion): Prim
  {
    Prim(pid, h.version, h.changeset, Some(h.instant), Some(h.user), h.visible, h.tags, false, h.coords, [])
  }

  function Lookup(layer: map<PrimId, Prim>, pid: PrimId): Option<Prim>
  {
    if pid in layer then Some(layer[pid]) else None
  }

  /** History.getByVersion. */
  function GetByVersion(byVersion: map<int, HistVersion>, v: int): Option<HistVersion>
  {
    if v in byVersion then Some(byVersion[v]) else None
  }

  predicate VisibleAt(byVersion: map<int, HistVersion>, v: int)
  {
    v in byVersion && byVersion[v].visible
  }

  // ---------------------------------------------------------------------------------
  // The search for the latest visible version below the latest one
  // ---------------------------------------------------------------------------------

  /** Looks up v, v - 1, ..., 1 and stops at the first version found and visible; when there
      is none, the lookup of version 1 is what remains. */
  function SearchFrom(byVersion: map<int, HistVersion>, v: int): Option<HistVersion>
    requires v >= 1
    decreases v
  {
    var h := GetByVersion(byVersion, v);
    if (h.Some? && h.value.visible) || v == 1 then h else SearchFrom(byVersion, v - 1)
  }

  /** The value hPrimitive2 has after the search loop, for a latest version n. */
  function LatestVisibleBelow(byVersion: map<int, HistVersion>, n: int): Option<HistVersion>
  {
    if n <= 1 then None else SearchFrom(byVersion, n - 1)
  }

  lemma {:induction false} SearchFromResult(byVersion: map<int, HistVersion>, v: int)
    requires v >= 1
    ensures (exists u :: 1 <= u <= v && VisibleAt(byVersion, u)) ==>
              exists w :: 1 <= w <= v && VisibleAt(byVersion, w) && SearchFrom(byVersion, v) == Some(byVersion[w]) &&
                          forall u :: w < u <= v ==> !VisibleAt(byVersion, u)
    ensures (forall u :: 1 <= u <= v ==> !VisibleAt(byVersion, u)) ==> SearchFrom(byVersion, v) == GetByVersion(byVersion, 1)
  {
    if VisibleAt(byVersion, v) {
      assert SearchFrom(byVersion, v) == Some(byVersion[v]);
    } else if v > 1 {
      SearchFromResult(byVersion, v - 1);
      if exists u :: 1 <= u <= v && VisibleAt(byVersion, u) {
        var u :| 1 <= u <= v && VisibleAt(byVersion, u);
        assert u <= v - 1;
      }
    }
  }

  /** What the search finds: nothing for n <= 1; the greatest visible version below n when
      there is one; and otherwise, for n >= 2, whatever the lookup of version 1 gave, which
      may be a version that is present but not visible. An invisible result arises only
      that way. */
  lemma LatestVisibleBelowResult(byVersion: map<int, HistVersion>, n: int)
    ensures n <= 1 ==> LatestVisibleBelow(byVersion, n) == None
    ensures (exists u :: 1 <= u < n && VisibleAt(byVersion, u)) ==>
              exists w :: 1 <= w < n && VisibleAt(byVersion, w) && LatestVisibleBelow(byVersion, n) == Some(byVersion[w]) &&
                          forall u :: w < u < n ==> !VisibleAt(byVersion, u)
    ensures n >= 2 && (forall u :: 1 <= u < n ==> !VisibleAt(byVersion, u)) ==>
              LatestVisibleBelow(byVersion, n) == GetByVersion(byVersion, 1)
    ensures LatestVisibleBelow(byVersion, n).Some? && !LatestVisibleBelow(byVersion, n).value.visible ==>
              n >= 2 && LatestVisibleBelow(byVersion, n) == GetByVersion(byVersion, 1) &&
              forall u :: 1 <= u < n ==> !VisibleAt(byVersion, u)
  {
    if n >= 2 {
      SearchFromResult(byVersion, n - 1);
    }
  }

  /** The search loop: probes versions n - 1, n - 2, ... downward and stops at the first
      version that is present and visible; probed lists the versions looked up, in order. */
  method SearchVisibleVersion(byVersion: map<int, HistVersion>, n: int) returns (found: Option<HistVersion>, ghost probed: seq<int>)
    ensures found == LatestVisibleBelow(byVersion, n)
    ensures forall i :: 0 <= i < |probed| ==> probed[i] == n - 1 - i
    ensures n <= 1 ==> probed == [] && found.None?
    ensures n >= 2 ==> 1 <= |probed| <= n - 1 && found == GetByVersion(byVersion, probed[|probed| - 1])
    ensures forall i :: 0 <= i < |probed| - 1 ==> !VisibleAt(byVersion, probed[i])
    ensures n >= 2 ==> |probed| == n - 1 || VisibleAt(byVersion, probed[|probed| - 1])
  {
    var idx := 1;
    found := None;
    probed := [];
    while idx < n
      invariant 1 <= idx && (n >= 1 ==> idx <= n) && (n <= 1 ==> idx == 1)
      invariant |probed| == idx - 1
      invariant forall i :: 0 <= i < |probed| ==> probed[i] == n - 1 - i
      invariant forall i :: 0 <= i < |probed| ==> !VisibleAt(byVersion, probed[i])
      invariant |probed| > 0 ==> found == GetByVersion(byVersion, probed[|probed| - 1])
      invariant idx == 1 ==> found.None?
      invariant LatestVisibleBelow(byVersion, n) == if idx < n then SearchFrom(byVersion, n - idx) else found
    {
      found := GetByVersion(byVersion, n - idx);
      probed := probed + [n - idx];
      idx := idx + 1;
      if found.Some? && found.value.visible {
        break;
      }
    }
  }

  // ---------------------------------------------------------------------------------
  // Relation members
  // ---------------------------------------------------------------------------------

  function MemberId(m: MemberData): PrimId
  {
    PrimId(m.memberType, m.memberId)
  }

  function MemberIds(data: seq<MemberData>): set<PrimId>
  {
    set i | 0 <= i < |data| :: MemberId(data[i])
  }

  /** The members of a rebuilt relation, and the layer and restored set after the
      placeholders for absent members were added. */
  datatype Rebuilt = Rebuilt(members: seq<Member>, layer: map<PrimId, Prim>, restored: set<PrimId>)

  /** The member loop: each member keeps its role and refers to the layer's primitive of
      that id; a member not in the layer gets a placeholder, added to the layer and to the
      restored set before the next member is looked up. */
  function Members(layer: map<PrimId, Prim>, restored: set<PrimId>, data: seq<MemberData>): Rebuilt
    decreases |data|
  {
    if |data| == 0 then Rebuilt([], layer, restored)
    else
      var pid := MemberId(data[0]);
      var layer1 := if pid in layer then layer else layer[pid := Placeholder(pid)];
      var restored1 := if pid in layer then restored else restored + {pid};
      var rest := Members(layer1, restored1, data[1..]);
      Rebuilt([Member(data[0].role, pid)] + rest.members, rest.layer, rest.restored)
  }

  /** The members come in the historic order, with the historic roles. */
  lemma {:induction false} MembersKeepOrderAndRoles(layer: map<PrimId, Prim>, restored: set<PrimId>, data: seq<MemberData>)
    ensures var r := Members(layer, restored, data);
            |r.members| == |data| &&
            forall i :: 0 <= i < |data| ==> r.members[i] == Member(data[i].role, MemberId(data[i]))
    decreases |data|
  {
    if |data| > 0 {
      var pid := MemberId(data[0]);
      var layer1 := if pid in layer then layer else layer[pid := Placeholder(pid)];
      var restored1 := if pid in layer then restored else restored + {pid};
      MembersKeepOrderAndRoles(layer1, restored1, data[1..]);
    }
  }

  /** Every member absent from the layer becomes a placeholder in the layer; primitives
      already in the layer are left as they are. */
  lemma {:induction false} MembersAddPlaceholders(layer: map<PrimId, Prim>, restored: set<PrimId>, data: seq<MemberData>)
    ensures var r := Members(layer, restored, data);
            && r.layer.Keys == layer.Keys + MemberIds(data)
            && (forall k :: k in layer ==> r.layer[k] == layer[k])
            && (forall k :: k in r.layer && k !in layer ==> r.layer[k] == Placeholder(k))
    decreases |data|
  {
    if |data| > 0 {
      var pid := MemberId(data[0]);
      var layer1 := if pid in layer then layer else layer[pid := Placeholder(pid)];
      var restored1 := if pid in layer then restored else restored + {pid};
      var r := Members(layer1, restored1, data[1..]).layer;
      assert Members(layer, restored, data).layer == r;
      MembersAddPlaceholders(layer1, restored1, data[1..]);
      MemberIdsCons(data);
      forall k | k in layer ensures r[k] == layer[k] {
        assert k in layer1 && layer1[k] == layer[k];
      }
      forall k | k in r && k !in layer ensures r[k] == Placeholder(k) {
        if k in layer1 {
          assert k == pid && layer1[k] == Placeholder(pid);
        }
      }
    }
  }

  /** The members absent from the layer are exactly those added to the restored set. */
  lemma {:induction false} MembersRestoreAbsent(layer: map<PrimId, Prim>, restored: set<PrimId>, data: seq<MemberData>)
    ensures Members(layer, restored, data).restored == restored + (MemberIds(data) - layer.Keys)
    decreases |data|
  {
    if |data| > 0 {
      var pid := MemberId(data[0]);
      var layer1 := if pid in layer then layer else layer[pid := Placeholder(pid)];
      var restored1 := if pid in layer then restored else restored + {pid};
      assert Members(layer, restored, data).restored == Members(layer1, restored1, data[1..]).restored;
      MembersRestoreAbsent(layer1, restored1, data[1..]);
      MemberIdsCons(data);
      assert layer1.Keys == layer.Keys + {pid};
    }
  }

  lemma MemberIdsCons(data: seq<MemberData>)
    requires |data| > 0
    ensures MemberIds(data) == {MemberId(data[0])} + MemberIds(data[1..])
  {
    forall k | k in MemberIds(data) ensures k in {MemberId(data[0])} + MemberIds(data[1..]) {
      var i :| 0 <= i < |data| && MemberId(data[i]) == k;
      if i > 0 { assert MemberId(data[1..][i - 1]) == k; }
    }
    forall k | k in MemberIds(data[1..]) ensures k in MemberIds(data) {
      var i :| 0 <= i < |data[1..]| && MemberId(data[1..][i]) == k;
      assert MemberId(data[i + 1]) == k;
    }
  }

  /** The member loop, on the layer and restored set it is given. */
  method CollectMembers(layer: map<PrimId, Prim>, restored: set<PrimId>, data: seq<MemberData>)
    returns (members: seq<Member>, layer': map<PrimId, Prim>, restored': set<PrimId>)
    ensures Members(layer, restored, data) == Rebuilt(members, layer', restored')
  {
    members, layer', restored' := [], layer, restored;
    var i := 0;
    while i < |data|
      invariant 0 <= i <= |data|
      invariant var tail := Members(layer', restored', data[i..]);
                Members(layer, restored, data) == Rebuilt(members + tail.members, tail.layer, tail.restored)
    {
      var m := data[i];
      var pid := MemberId(m);
      assert data[i..][0] == m && data[i..][1..] == data[i + 1..];
      if pid !in layer' {
        layer' := layer'[pid := Placeholder(pid)];
        restored' := restored' + {pid};
      }
      members := members + [Member(m.role, pid)];
      i := i + 1;
    }
    assert data[i..] == [];
  }

  // ---------------------------------------------------------------------------------
  // One requested id, and the whole list
  // ---------------------------------------------------------------------------------

  /** What the worker is given: the ids the history download reported missing (null when it
      did not collect them), the history data set, what downloading an id that is not
      deleted adds to the layer, and whether the worker has a parent primitive. */
  datatype Env = Env(missing: Option<set<PrimId>>, histories: map<PrimId, History>, server: map<PrimId, Prim>, hasParent: bool)

  /** What the worker changes: the layer's data set, the shared restored set, the nested
      undelete requests it submits, and the local list of nodes for the parent way. */
  datatype State = State(layer: map<PrimId, Prim>, restored: set<PrimId>, requests: seq<Request>, nodes: seq<PrimId>)

  /** One id either lets the loop go on, or makes run() return at once (no history). */
  datatype StepResult = Stop | Next(st: State)

  datatype Built = Built(st: State, prim: Prim)

  /** The whole run: the state reached, and whether every id was visited. */
  datatype Outcome = Outcome(st: State, completed: bool)

  /** An id is skipped when the missing set is null or contains it. */
  predicate Skipped(missing: Option<set<PrimId>>, pid: PrimId)
  {
    missing.None? || pid in missing.value
  }

  function WayNodeIds(nodes: seq<int>): seq<PrimId>
  {
    seq(|nodes|, i requires 0 <= i < |nodes| => PrimId(Node, nodes[i]))
  }

  /** The fields taken from the latest version (changeset, timestamp, user, visibility) and
      from the version found (tags); the primitive is marked modified. Its version was set
      from the latest version when it was created. */
  function Merge(p: Prim, latest: HistVersion, found: HistVersion): Prim
  {
    p.(changeset := ToInt32(latest.changeset), instant := Some(latest.instant), user := Some(latest.user),
       visible := latest.visible, tags := found.tags, modified := true)
  }

  /** The branch for a deleted primitive, given the latest version and the search result. */
  function Reconstruct(pid: PrimId, latest: HistVersion, found: Option<HistVersion>, st: State): Built
  {
    var base := NewPrimitive(pid, ToInt32(latest.version));
    var built :=
      match pid.kind
      case Node => Built(st, if found.Some? then base.(coords := found.value.coords) else base)
      case Way =>
        var nodeIds := if found.Some? then WayNodeIds(found.value.nodes) else [];
        Built(st.(requests := st.requests + [Request(pid, nodeIds)]), base)
      case Relation =>
        if found.Some? then
          var r := Members(st.layer, st.restored, found.value.members);
          Built(st.(layer := r.layer, restored := r.restored), base.(members := r.members))
        else Built(st, base);
    if found.Some? then
      var p := Merge(built.prim, latest, found.value);
      Built(built.st.(layer := built.st.layer[pid := p], restored := built.st.restored + {pid}), p)
    else built
  }

  /** After the id is handled: a primitive that is a Node joins the parent's node list when
      there is a parent. */
  function WithNode(env: Env, st: State, prim: Option<Prim>): State
  {
    if env.hasParent && prim.Some? && prim.value.pid.kind == Node then st.(nodes := st.nodes + [prim.value.pid]) else st
  }

  /** One iteration of the loop of run() for the id pid. */
  function Step(env: Env, pid: PrimId, st: State): StepResult
  {
    if Skipped(env.missing, pid) then Next(st)
    else if pid in st.layer then Next(WithNode(env, st, Some(st.layer[pid])))
    else if pid !in env.histories then Stop
    else
      var h := env.histories[pid];
      var latest := h.latest;
      if latest.visible then
        if pid.kind == Node then
          var p := Loaded(pid, latest);
          Next(WithNode(env, st.(layer := st.layer[pid := p], restored := st.restored + {pid}), Some(p)))
        else
          var layer1 := if pid in env.server then st.layer[pid := env.server[pid]] else st.layer;
          var prim := Lookup(layer1, pid);
          Next(WithNode(env, st.(layer := layer1, restored := if prim.Some? then st.restored + {pid} else st.restored), prim))
      else
        var found := LatestVisibleBelow(h.byVersion, latest.version);
        var b := Reconstruct(pid, latest, found, st);
        Next(WithNode(env, b.st, Some(b.prim)))
  }

  /** The loop of run() over the ids, in order, until an id without history stops it. */
  function Process(env: Env, ids: seq<PrimId>, st: State): Outcome
    decreases |ids|
  {
    if |ids| == 0 then Outcome(st, true)
    else match Step(env, ids[0], st)
      case Stop => Outcome(st, false)
      case Next(st1) => Process(env, ids[1..], st1)
  }

  // ---------------------------------------------------------------------------------
  // Properties of the procedure
  // ---------------------------------------------------------------------------------

  /** Running over xs + ys is running over xs and then, if it did not stop, over ys. */
  lemma {:induction false} ProcessAppend(env: Env, xs: seq<PrimId>, ys: seq<PrimId>, st: State)
    ensures Process(env, xs + ys, st) ==
              var o := Process(env, xs, st);
              if o.completed then Process(env, ys, o.st) else o
    decreases |xs|
  {
    if |xs| > 0 {
      assert (xs + ys)[0] == xs[0] && (xs + ys)[1..] == xs[1..] + ys;
      match Step(env, xs[0], st)
      case Stop =>
      case Next(st1) => ProcessAppend(env, xs[1..], ys, st1);
    } else {
      assert xs + ys == ys;
    }
  }

  /** Ids that are skipped change nothing; in particular, with a null missing set no id is
      processed at all. */
  lemma {:induction false} SkippedIdsChangeNothing(env: Env, ids: seq<PrimId>, st: State)
    requires forall i :: 0 <= i < |ids| ==> Skipped(env.missing, ids[i])
    ensures Process(env, ids, st) == Outcome(st, true)
    decreases |ids|
  {
    if |ids| > 0 {
      SkippedIdsChangeNothing(env, ids[1..], st);
    }
  }

  lemma NullMissingSetProcessesNothing(env: Env, ids: seq<PrimId>, st: State)
    requires env.missing.None?
    ensures Process(env, ids, st) == Outcome(st, true)
  {
    SkippedIdsChangeNothing(env, ids, st);
  }

  /** An id that is not skipped, not in the layer and has no history ends the run where it
      stands: the ids after it are not visited. */
  lemma StopsAtIdWithoutHistory(env: Env, xs: seq<PrimId>, pid: PrimId, ys: seq<PrimId>, st: State)
    requires Process(env, xs, st).completed
    requires !Skipped(env.missing, pid) && pid !in Process(env, xs, st).st.layer && pid !in env.histories
    ensures Process(env, xs + [pid] + ys, st) == Outcome(Process(env, xs, st).st, false)
  {
    ProcessAppend(env, xs, [pid] + ys, st);
    assert xs + [pid] + ys == xs + ([pid] + ys);
  }

  /** The primitive reconstructed for a deleted id: when the search found a version it gets
      version, changeset, timestamp, user and visibility from the latest version and tags
      from the version found, is marked modified, and is added to the layer and to the
      restored set; it is then invisible, as the latest version is. When the search found
      nothing, neither the layer nor the restored set changes. */
  lemma DeletedPrimitiveRebuilt(env: Env, pid: PrimId, st: State)
    requires !Skipped(env.missing, pid) && pid !in st.layer && pid in env.histories
    requires !env.histories[pid].latest.visible
    ensures var h := env.histories[pid];
            var found := LatestVisibleBelow(h.byVersion, h.latest.version);
            var r := Step(env, pid, st);
            && r.Next?
            && (found.Some? ==>
                  && pid in r.st.layer && pid in r.st.restored
                  && r.st.layer[pid].pid == pid
                  && r.st.layer[pid].version == ToInt32(h.latest.version)
                  && r.st.layer[pid].changeset == ToInt32(h.latest.changeset)
                  && r.st.layer[pid].instant == Some(h.latest.instant)
                  && r.st.layer[pid].user == Some(h.latest.user)
                  && !r.st.layer[pid].visible
                  && r.st.layer[pid].tags == found.value.tags
                  && r.st.layer[pid].modified)
            && (found.None? ==> r.st.layer == st.layer && r.st.restored == st.restored)
  {
  }

  /** A deleted node takes its coordinates from the version found; a deleted way submits
      the undelete of the nodes of the version found (none when nothing was found), with
      the way as parent. */
  lemma DeletedNodeAndWayParts(env: Env, pid: PrimId, st: State)
    requires !Skipped(env.missing, pid) && pid !in st.layer && pid in env.histories
    requires !env.histories[pid].latest.visible
    ensures var h := env.histories[pid];
            var found := LatestVisibleBelow(h.byVersion, h.latest.version);
            var r := Step(env, pid, st);
            && r.Next?
            && (pid.kind == Node && found.Some? ==> r.st.layer[pid].coords == found.value.coords)
            && (pid.kind == Way ==>
                  r.st.requests == st.requests + [Request(pid, if found.Some? then WayNodeIds(found.value.nodes) else [])])
            && (pid.kind != Way ==> r.st.requests == st.requests)
  {
  }

  /** A deleted relation whose search found a version gets that version's members, in order
      and with their roles; every member absent from the layer is added to the layer and
      to the restored set. */
  lemma DeletedRelationMembers(env: Env, pid: PrimId, st: State)
    requires !Skipped(env.missing, pid) && pid !in st.layer && pid in env.histories
    requires pid.kind == Relation && !env.histories[pid].latest.visible
    requires LatestVisibleBelow(env.histories[pid].byVersion, env.histories[pid].latest.version).Some?
    ensures var h := env.histories[pid];
            var data := LatestVisibleBelow(h.byVersion, h.latest.version).value.members;
            var r := Step(env, pid, st);
            && r.Next?
            && |r.st.layer[pid].members| == |data|
            && (forall i :: 0 <= i < |data| ==> r.st.layer[pid].members[i] == Member(data[i].role, MemberId(data[i])))
            && (forall i :: 0 <= i < |data| && MemberId(data[i]) !in st.layer ==>
                  MemberId(data[i]) in r.st.layer && MemberId(data[i]) in r.st.restored)
  {
    var h := env.histories[pid];
    var data := LatestVisibleBelow(h.byVersion, h.latest.version).value.members;
    MembersKeepOrderAndRoles(st.layer, st.restored, data);
    MembersAddPlaceholders(st.layer, st.restored, data);
    MembersRestoreAbsent(st.layer, st.restored, data);
    forall i | 0 <= i < |data| ensures MemberId(data[i]) in MemberIds(data) {
    }
  }

  /** A visible node is loaded from its latest version and restored; a visible way or
      relation is downloaded, and it is restored exactly when the download delivered it. */
  lemma VisiblePrimitiveRestored(env: Env, pid: PrimId, st: State)
    requires !Skipped(env.missing, pid) && pid !in st.layer && pid in env.histories
    requires env.histories[pid].latest.visible
    ensures var r := Step(env, pid, st);
            && r.Next?
            && (pid.kind == Node ==>
                  pid in r.st.restored && r.st.layer == st.layer[pid := Loaded(pid, env.histories[pid].latest)])
            && (pid.kind != Node ==>
                  r.st.restored == (if pid in env.server then st.restored + {pid} else st.restored) &&
                  r.st.layer == (if pid in env.server then st.layer[pid := env.server[pid]] else st.layer))
  {
  }

  /** Every primitive of the layer is stored under its own id. */
  predicate Consistent(layer: map<PrimId, Prim>)
  {
    forall k :: k in layer ==> layer[k].pid == k
  }

  /** A step keeps the layer consistent, never changes or removes a primitive that was in
      the layer, and never removes an object from the restored set. That a primitive in the
      layer is kept rests on the download adding only the requested primitive (env.server). */
  lemma StepPreserves(env: Env, pid: PrimId, st: State)
    requires Consistent(st.layer) && Consistent(env.server)
    requires Step(env, pid, st).Next?
    ensures var st1 := Step(env, pid, st).st;
            && Consistent(st1.layer)
            && (forall k :: k in st.layer ==> k in st1.layer && st1.layer[k] == st.layer[k])
            && st.restored <= st1.restored
  {
    if !Skipped(env.missing, pid) && pid !in st.layer && pid in env.histories {
      var h := env.histories[pid];
      if !h.latest.visible {
        var found := LatestVisibleBelow(h.byVersion, h.latest.version);
        ReconstructPreserves(pid, h.latest, found, st);
        var b := Reconstruct(pid, h.latest, found, st);
        assert Step(env, pid, st).st.layer == b.st.layer && Step(env, pid, st).st.restored == b.st.restored;
      }
    }
  }

  /** Rebuilding a deleted primitive adds it and its placeholders to the layer, each under its
      own id, without touching the primitives already there. */
  lemma ReconstructPreserves(pid: PrimId, latest: HistVersion, found: Option<HistVersion>, st: State)
    requires Consistent(st.layer) && pid !in st.layer
    ensures var b := Reconstruct(pid, latest, found, st);
            && b.prim.pid == pid
            && Consistent(b.st.layer)
            && (forall k :: k in st.layer ==> k in b.st.layer && b.st.layer[k] == st.layer[k])
            && st.restored <= b.st.restored
  {
    if pid.kind == Relation && found.Some? {
      MembersAddPlaceholders(st.layer, st.restored, found.value.members);
      MembersRestoreAbsent(st.layer, st.restored, found.value.members);
    }
  }

  /** The ids that end up in the parent's node list: those not skipped whose type is Node,
      in the order of the request, when there is a parent. */
  function ParentNodeIds(env: Env, ids: seq<PrimId>): seq<PrimId>
    decreases |ids|
  {
    if |ids| == 0 then []
    else (if env.hasParent && !Skipped(env.missing, ids[0]) && ids[0].kind == Node then [ids[0]] else [])
         + ParentNodeIds(env, ids[1..])
  }

  lemma StepNodes(env: Env, pid: PrimId, st: State)
    requires Consistent(st.layer) && Consistent(env.server)
    requires Step(env, pid, st).Next?
    ensures Step(env, pid, st).st.nodes ==
              st.nodes + if env.hasParent && !Skipped(env.missing, pid) && pid.kind == Node then [pid] else []
  {
  }

  /** In a run that visits every id, the node list passed to the parent way holds exactly
      the ids of the run that are Nodes and not skipped, in order. */
  lemma {:induction false} ProcessNodes(env: Env, ids: seq<PrimId>, st: State)
    requires Consistent(st.layer) && Consistent(env.server)
    requires Process(env, ids, st).completed
    ensures Process(env, ids, st).st.nodes == st.nodes + ParentNodeIds(env, ids)
    decreases |ids|
  {
    if |ids| > 0 {
      var st1 := Step(env, ids[0], st).st;
      var here := if env.hasParent && !Skipped(env.missing, ids[0]) && ids[0].kind == Node then [ids[0]] else [];
      StepNodes(env, ids[0], st);
      StepPreserves(env, ids[0], st);
      assert Process(env, ids, st) == Process(env, ids[1..], st1);
      ProcessNodes(env, ids[1..], st1);
      assert ParentNodeIds(env, ids) == here + ParentNodeIds(env, ids[1..]);
      assert (st.nodes + here) + ParentNodeIds(env, ids[1..]) == st.nodes + (here + ParentNodeIds(env, ids[1..]));
    }
  }

  /** A run never changes a primitive that was in the layer and only adds to the restored set
      (with the download adding only the requested primitive, as in StepPreserves). */
  lemma {:induction false} ProcessPreserves(env: Env, ids: seq<PrimId>, st: State)
    requires Consistent(st.layer) && Consistent(env.server)
    ensures var o := Process(env, ids, st);
            && Consistent(o.st.layer)
            && (forall k :: k in st.layer ==> k in o.st.layer && o.st.layer[k] == st.layer[k])
            && st.restored <= o.st.restored
    decreases |ids|
  {
    if |ids| > 0 && Step(env, ids[0], st).Next? {
      var st1 := Step(env, ids[0], st).st;
      StepPreserves(env, ids[0], st);
      ProcessPreserves(env, ids[1..], st1);
    }
  }

  // ---------------------------------------------------------------------------------
  // The worker, in place
  // ---------------------------------------------------------------------------------

  class Worker {
    /** The kind of the parent primitive, when there is one (a way for a nested undelete). */
    const parent: Option<PrimType>
    const ids: seq<PrimId>
    const missingPrimitives: Option<set<PrimId>>
    /** HistoryDataSet: the history of each id it knows. */
    const histories: map<PrimId, History>
    /** What downloading a way or relation that is not deleted puts into the layer. */
    const server: map<PrimId, Prim>

    /** The data set of the edit layer. */
    var layer: map<PrimId, Prim>
    /** The set of restored primitives, shared with nested undeletes. */
    var restored: set<PrimId>
    /** The nested undeletes submitted so far. */
    var requests: seq<Request>
    /** The node list given to the parent way by setNodes, if run() called it. */
    var parentNodes: Option<seq<PrimId>>

    constructor (parent: Option<PrimType>, layer: map<PrimId, Prim>, ids: seq<PrimId>, restored: set<PrimId>,
                 missingPrimitives: Option<set<PrimId>>, histories: map<PrimId, History>, server: map<PrimId, Prim>)
      ensures this.parent == parent && this.ids == ids && this.missingPrimitives == missingPrimitives
      ensures this.histories == histories && this.server == server
      ensures this.layer == layer && this.restored == restored && requests == [] && parentNodes.None?
    {
      this.parent := parent;
      this.ids := ids;
      this.missingPrimitives := missingPrimitives;
      this.histories := histories;
      this.server := server;
      this.layer := layer;
      this.restored := restored;
      requests := [];
      parentNodes := None;
    }

    function Environment(): Env
    {
      Env(missingPrimitives, histories, server, parent.Some?)
    }

    /** One iteration of the loop of run(): handles pid, with nodes the parent's node list so
        far; stop says that run() returns here. */
    method Visit(pid: PrimId, nodes: seq<PrimId>) returns (nodes': seq<PrimId>, stop: bool)
      modifies this
      ensures var before := State(old(layer), old(restored), old(requests), nodes);
              match Step(Environment(), pid, before)
              case Stop => stop && layer == old(layer) && restored == old(restored) && requests == old(requests)
              case Next(st) => !stop && layer == st.layer && restored == st.restored && requests == st.requests && nodes' == st.nodes
      ensures parentNodes == old(parentNodes)
    {
      nodes', stop := nodes, false;
      if missingPrimitives.None? || pid in missingPrimitives.value {
        return;
      }
      var primitive := Lookup(layer, pid);
      if primitive.None? {
        if pid !in histories {
          stop := true;
          return;
        }
        var h := histories[pid];
        var latest := h.latest;
        if latest.visible {
          if pid.kind == Node {
            var p := Loaded(pid, latest);
            layer := layer[pid := p];
            primitive := Some(p);
          } else {
            if pid in server {
              layer := layer[pid := server[pid]];
            }
            primitive := Lookup(layer, pid);
          }
          if primitive.Some? {
            restored := restored + {pid};
          }
        } else {
          var found;
          ghost var probed;
          found, probed := SearchVisibleVersion(h.byVersion, latest.version);
          var rebuilt := NewPrimitive(pid, ToInt32(latest.version));
          if pid.kind == Node {
            if found.Some? {
              rebuilt := rebuilt.(coords := found.value.coords);
            }
          } else if pid.kind == Way {
            var nodeIds: seq<PrimId> := [];
            if found.Some? {
              nodeIds := NodeIdsOf(found.value.nodes);
            }
            requests := requests + [Request(pid, nodeIds)];
          } else if found.Some? {
            var members;
            members, layer, restored := CollectMembers(layer, restored, found.value.members);
            rebuilt := rebuilt.(members := members);
          }
          if found.Some? {
            rebuilt := Merge(rebuilt, latest, found.value);
            layer := layer[pid := rebuilt];
            restored := restored + {pid};
          }
          primitive := Some(rebuilt);
        }
      }
      if parent.Some? && primitive.Some? && primitive.value.pid.kind == Node {
        nodes' := nodes + [primitive.value.pid];
      }
    }

    /** run(): visits the ids in order until one without history stops it; when every id
        was visited and the parent is a way, gives it the collected nodes if there are any. */
    method Run()
      modifies this
      ensures var o := Process(Environment(), ids, State(old(layer), old(restored), old(requests), []));
              && layer == o.st.layer && restored == o.st.restored && requests == o.st.requests
              && parentNodes == if o.completed && parent == Some(Way) && o.st.nodes != [] then Some(o.st.nodes) else old(parentNodes)
    {
      ghost var start := State(layer, restored, requests, []);
      var nodes: seq<PrimId> := [];
      var i := 0;
      while i < |ids|
        invariant 0 <= i <= |ids|
        invariant Process(Environment(), ids, start) == Process(Environment(), ids[i..], State(layer, restored, requests, nodes))
        invariant parentNodes == old(parentNodes)
      {
        assert ids[i..][0] == ids[i] && ids[i..][1..] == ids[i + 1..];
        var stop;
        nodes, stop := Visit(ids[i], nodes);
        if stop {
          return;
        }
        i := i + 1;
      }
      assert ids[i..] == [];
      if parent == Some(Way) && nodes != [] {
        parentNodes := Some(nodes);
      }
    }
  }

  /** The loop that turns a historic way's node ids into node primitive ids. */
  method NodeIdsOf(nodes: seq<int>) returns (ids: seq<PrimId>)
    ensures |ids| == |nodes| && forall i :: 0 <= i < |nodes| ==> ids[i] == PrimId(Node, nodes[i])
    ensures ids == WayNodeIds(nodes)
  {
    ids := [];
    var i := 0;
    while i < |nodes|
      invariant 0 <= i <= |nodes|
      invariant |ids| == i && forall j :: 0 <= j < i ==> ids[j] == PrimId(Node, nodes[j])
    {
      ids := ids + [PrimId(Node, nodes[i])];
      i := i + 1;
    }
  }
}
