/** The contact-trajectory bookkeeping of `processContactTrajectory`: which
    id each end-effector name gets, which index in a state's contact list
    is recorded for it, and which points are drawn for it. */
module ContactGrouping {
  import opened Common
  import opened Messages
  import opened NameOrder
  import opened Visuals

  /** One visit of the nested loops over states and their contacts: the
      contact's name and its index `k` in its state's contact list. */
  datatype Entry = Entry(name: string, index: nat)

  function Entries(cs: seq<ContactState>): (r: seq<Entry>)
    ensures |r| == |cs|
    ensures forall k :: 0 <= k < |cs| ==> r[k] == Entry(cs[k].name, k)
  {
    seq(|cs|, k requires 0 <= k < |cs| => Entry(cs[k].name, k))
  }

  /** Every visit of the trajectory's contacts, state after state. */
  function FlatEntries(ts: Trajectory): seq<Entry>
  {
    if ts == [] then [] else FlatEntries(ts[..|ts| - 1]) + Entries(ts[|ts| - 1].contacts)
  }

  function NamesOf(p: seq<Entry>): (r: seq<string>)
    ensures |r| == |p|
    ensures forall j :: 0 <= j < |p| ==> r[j] == p[j].name
  {
    seq(|p|, j requires 0 <= j < |p| => p[j].name)
  }

  /** The distinct contact names of a trajectory. */
  function NameSet(ts: Trajectory): set<string>
  {
    SetOf(NamesOf(FlatEntries(ts)))
  }

  /** The elements of `s` in order of first appearance. */
  function Distinct<T(==)>(s: seq<T>): seq<T>
  {
    if s == [] then []
    else
      var d := Distinct(s[..|s| - 1]);
      if s[|s| - 1] in d then d else d + [s[|s| - 1]]
  }

  /** The names of the trajectory in order of first appearance: the name
      at position `t` is the one that gets id `t`. */
  function TrajectoryOrder(ts: Trajectory): seq<string>
  {
    Distinct(NamesOf(FlatEntries(ts)))
  }

  /** The index `k` of the last visit of name `n` in `p`. */
  function LastIndex(p: seq<Entry>, n: string): Option<nat>
  {
    if p == [] then None
    else if p[|p| - 1].name == n then Some(p[|p| - 1].index)
    else LastIndex(p[..|p| - 1], n)
  }

  /** The id part of the bookkeeping after visiting `p`: `ids` numbers the
      names of `p` 0, 1, 2, ... in order of first appearance and `count`
      is the number of names. */
  ghost predicate IdsFor(ids: map<string, nat>, count: nat, p: seq<Entry>)
  {
    var order := Distinct(NamesOf(p));
    && count == |order|
    && ids.Keys == SetOf(order)
    && (forall t :: 0 <= t < |order| ==> ids[order[t]] == t)
  }

  /** The whole bookkeeping of the second pass after visiting `p`:
      `contact_traj_id`, `contact_vec_id` and `traj_id`. Every id has a
      recorded index, and it is the index of the last visit of its name. */
  ghost predicate Registry(ids: map<string, nat>, vecId: map<nat, nat>, trajId: nat, p: seq<Entry>)
  {
    var order := Distinct(NamesOf(p));
    && IdsFor(ids, trajId, p)
    && (forall t :: t in vecId <==> 0 <= t < |order|)
    && (forall t :: 0 <= t < |order| ==> LastIndex(p, order[t]) == Some(vecId[t]))
  }

  /** Where a contact of a message is drawn: its position after the
      sanity check of lines 525-532, carried into the fixed frame. */
  function Placed(frame: Frame, p: DVec3): Vec3
  {
    Apply(frame, Sanitize(p))
  }

  function AsSeq<T>(o: Option<T>): seq<T>
  {
    match o
    case Some(x) => [x]
    case None => []
  }

  /** The point drawn for name `n` in state `s`: the position of the last
      contact of that name in `s`, or nothing when `s` has no such contact. */
  function StatePoint(s: WholeBodyState, n: string, frame: Frame): (r: Option<Vec3>)
    ensures r.Some? <==> Present(s.contacts, n)
  {
    LastIndexIsContact(s.contacts, n);
    PresentIsVisited(s.contacts, n);
    match LastIndex(Entries(s.contacts), n)
    case Some(j) => Some(Placed(frame, s.contacts[j].position))
    case None => None
  }

  /** The contact trajectory of name `n`: one point per state in which the
      name is present, in state order. */
  function Track(ts: Trajectory, n: string, frame: Frame): seq<Vec3>
  {
    if ts == [] then []
    else Track(ts[..|ts| - 1], n, frame) + AsSeq(StatePoint(ts[|ts| - 1], n, frame))
  }

  /** The per-id line objects after a Billboards or Lines pass: id `t`
      holds the contact trajectory of the `t`-th name. */
  function ContactLines(ts: Trajectory, frame: Frame, ended: bool): seq<Option<Polyline>>
  {
    var order := TrajectoryOrder(ts);
    seq(|order|, t requires 0 <= t < |order| => Some(Polyline(Track(ts, order[t], frame), ended)))
  }

  /** The names of a state's contacts. */
  function PresentNames(cs: seq<ContactState>): set<string>
  {
    SetOf(NamesOf(Entries(cs)))
  }

  /** The point visuals a Points pass creates for state `s` when it visits
      `keys` in that order: one for each key present in `s`. */
  function EmitPoints(keys: seq<string>, s: WholeBodyState, frame: Frame): seq<Option<PointVisual>>
  {
    if keys == [] then []
    else
      var init := EmitPoints(keys[..|keys| - 1], s, frame);
      match StatePoint(s, keys[|keys| - 1], frame)
      case Some(p) => init + [Some(PointVisual(p, frame))]
      case None => init
  }

  /** `contact_points_[i]` after a Points pass: the state's points in the
      map order of their names, then reset slots up to the state's number
      of contacts (lines 508-511, 542-549). */
  ghost function StateSlots(ts: Trajectory, i: nat, frame: Frame): (r: seq<Option<PointVisual>>)
    requires i < |ts|
    ensures |r| == |ts[i].contacts|
  {
    var keys := SortedNames(NameSet(ts[..i + 1]));
    var e := EmitPoints(keys, ts[i], frame);
    EmitBound(keys, ts[i], frame);
    e + Nulls(|ts[i].contacts| - |e|)
  }

  ghost function ContactPointSlots(ts: Trajectory, frame: Frame): seq<seq<Option<PointVisual>>>
  {
    seq(|ts|, i requires 0 <= i < |ts| => StateSlots(ts, i, frame))
  }

  /** Line objects that hold, for the ids handed out so far (`order`), the
      tracks over the states `ts`, and are reset beyond. */
  ghost predicate LinesHold(lines: seq<Option<Polyline>>, order: seq<string>, ts: Trajectory, frame: Frame)
  {
    && |order| <= |lines|
    && (forall t :: 0 <= t < |order| ==> lines[t] == Some(Polyline(Track(ts, order[t], frame), false)))
    && (forall t :: |order| <= t < |lines| ==> lines[t] == None)
  }

  // ---------------------------------------------------------------------
  // Facts about the specification functions

  lemma {:induction false} DistinctProps<T>(s: seq<T>)
    ensures NoDup(Distinct(s))
    ensures SetOf(Distinct(s)) == SetOf(s)
    ensures |Distinct(s)| == |SetOf(s)|
  {
    if s != [] {
      var t := s[..|s| - 1];
      DistinctProps(t);
      assert s == t + [s[|s| - 1]];
      assert SetOf(s) == SetOf(t) + {s[|s| - 1]};
    }
    NoDupCard(Distinct(s));
  }

  /** A prefix of the visits keeps the first-appearance order: the ids
      given early are never renumbered. */
  lemma {:induction false} DistinctPrefix<T>(s: seq<T>, j: nat)
    requires j <= |s|
    ensures |Distinct(s[..j])| <= |Distinct(s)|
    ensures Distinct(s[..j]) == Distinct(s)[..|Distinct(s[..j])|]
    decreases |s|
  {
    if j < |s| {
      var t := s[..|s| - 1];
      assert s[..j] == t[..j];
      DistinctPrefix(t, j);
    } else {
      assert s[..j] == s;
    }
  }

  lemma {:induction false} NamesOfAppend(p: seq<Entry>, q: seq<Entry>)
    ensures NamesOf(p + q) == NamesOf(p) + NamesOf(q)
  {
  }

  lemma {:induction false} LastIndexAppend(p: seq<Entry>, q: seq<Entry>, n: string)
    ensures LastIndex(p + q, n) == if LastIndex(q, n).Some? then LastIndex(q, n) else LastIndex(p, n)
    decreases |q|
  {
    if q != [] {
      var q' := q[..|q| - 1];
      assert (p + q)[..|p + q| - 1] == p + q';
      LastIndexAppend(p, q', n);
    } else {
      assert p + q == p;
    }
  }

  /** A name has a recorded index exactly when it has been visited. */
  lemma {:induction false} LastIndexPresent(p: seq<Entry>, n: string)
    ensures LastIndex(p, n).Some? <==> n in NamesOf(p)
  {
    if p != [] {
      var p' := p[..|p| - 1];
      LastIndexPresent(p', n);
      assert NamesOf(p) == NamesOf(p') + [p[|p| - 1].name];
    }
  }

  /** Within one state, the recorded index of a present name points at a
      contact of that very name. */
  lemma {:induction false} LastIndexInState(cs: seq<ContactState>, n: string, k: nat)
    requires k <= |cs|
    ensures LastIndex(Entries(cs)[..k], n).Some? ==>
      LastIndex(Entries(cs)[..k], n).value < k && cs[LastIndex(Entries(cs)[..k], n).value].name == n
  {
    if k > 0 {
      assert Entries(cs)[..k][..k - 1] == Entries(cs)[..k - 1];
      LastIndexInState(cs, n, k - 1);
    }
  }

  lemma LastIndexIsContact(cs: seq<ContactState>, n: string)
    ensures LastIndex(Entries(cs), n).Some? ==>
      LastIndex(Entries(cs), n).value < |cs| && cs[LastIndex(Entries(cs), n).value].name == n
  {
    assert Entries(cs)[..|cs|] == Entries(cs);
    LastIndexInState(cs, n, |cs|);
  }

  /** `n` names a contact of the state. */
  predicate Present(cs: seq<ContactState>, n: string)
  {
    exists k :: 0 <= k < |cs| && cs[k].name == n
  }

  lemma PresentIsVisited(cs: seq<ContactState>, n: string)
    ensures Present(cs, n) <==> n in NamesOf(Entries(cs))
    ensures Present(cs, n) <==> LastIndex(Entries(cs), n).Some?
  {
    LastIndexPresent(Entries(cs), n);
    if n in NamesOf(Entries(cs)) {
      var j :| 0 <= j < |cs| && NamesOf(Entries(cs))[j] == n;
      assert cs[j].name == n;
    }
    if Present(cs, n) {
      var k :| 0 <= k < |cs| && cs[k].name == n;
      assert NamesOf(Entries(cs))[k] == n;
    }
  }

  lemma {:induction false} FlatEntriesPrefix(ts: Trajectory, i: nat)
    requires i < |ts|
    ensures FlatEntries(ts[..i + 1]) == FlatEntries(ts[..i]) + Entries(ts[i].contacts)
  {
    assert ts[..i + 1][..i] == ts[..i];
  }

  /** The visits of the first `i` states, then of the first `k` contacts of
      state `i`, are a prefix of all the visits. */
  lemma {:induction false} VisitPrefix(ts: Trajectory, i: nat, k: nat)
    requires i < |ts| && k <= |ts[i].contacts|
    ensures FlatEntries(ts[..i]) + Entries(ts[i].contacts)[..k] <= FlatEntries(ts)
    decreases |ts|
  {
    FlatEntriesPrefix(ts, i);
    var whole := FlatEntries(ts[..i + 1]);
    assert FlatEntries(ts[..i]) + Entries(ts[i].contacts)[..k] <= whole;
    PrefixOfWhole(ts, i + 1);
  }

  lemma {:induction false} PrefixOfWhole(ts: Trajectory, j: nat)
    requires j <= |ts|
    ensures FlatEntries(ts[..j]) <= FlatEntries(ts)
    decreases |ts|
  {
    if j < |ts| {
      var init := ts[..|ts| - 1];
      assert ts[..j] == init[..j];
      PrefixOfWhole(init, j);
    } else {
      assert ts[..j] == ts;
    }
  }

  /** At most as many ids are handed out at any point of the second pass
      as the first pass counted. */
  lemma {:induction false} PrefixIdsBound(ts: Trajectory, p: seq<Entry>)
    requires p <= FlatEntries(ts)
    ensures |Distinct(NamesOf(p))| <= |NameSet(ts)|
  {
    var all := FlatEntries(ts);
    assert NamesOf(p) == NamesOf(all)[..|p|];
    DistinctPrefix(NamesOf(all), |p|);
    DistinctProps(NamesOf(all));
  }

  lemma {:induction false} FlatEntriesSnoc(ts: Trajectory, s: WholeBodyState)
    ensures FlatEntries(ts + [s]) == FlatEntries(ts) + Entries(s.contacts)
  {
    assert (ts + [s])[..|ts|] == ts;
  }

  lemma {:induction false} OrderSnoc(p: seq<Entry>, e: Entry)
    ensures Distinct(NamesOf(p + [e])) ==
      var order := Distinct(NamesOf(p));
      if e.name in order then order else order + [e.name]
  {
    var s := NamesOf(p + [e]);
    assert s[..|s| - 1] == NamesOf(p);
  }

  lemma {:induction false} LastIndexSnoc(p: seq<Entry>, e: Entry, n: string)
    ensures LastIndex(p + [e], n) == if e.name == n then Some(e.index) else LastIndex(p, n)
  {
    assert (p + [e])[..|p|] == p;
  }

  /** Visiting one more contact: an unseen name gets the next id, a seen
      name keeps its id. */
  lemma {:induction false} IdsStep(ids: map<string, nat>, count: nat, p: seq<Entry>, e: Entry)
    requires IdsFor(ids, count, p)
    ensures e.name !in ids ==> IdsFor(ids[e.name := count], count + 1, p + [e])
    ensures e.name in ids ==> ids[e.name] < count && IdsFor(ids, count, p + [e])
  {
    OrderSnoc(p, e);
    var order := Distinct(NamesOf(p));
    if e.name in ids {
      assert e.name in SetOf(order);
      var t :| 0 <= t < |order| && order[t] == e.name;
    } else {
      assert e.name !in SetOf(order);
      var order' := order + [e.name];
      assert SetOf(order') == SetOf(order) + {e.name};
      forall t | 0 <= t < |order'| ensures ids[e.name := count][order'[t]] == t {
        if t < |order| { assert order[t] in SetOf(order); }
      }
    }
  }

  /** Visiting an unseen name: it gets the next id, and that id records
      the contact's index (lines 476-478). */
  lemma {:induction false} RegistryStepNew(ids: map<string, nat>, vecId: map<nat, nat>, trajId: nat,
                                           p: seq<Entry>, e: Entry)
    requires Registry(ids, vecId, trajId, p)
    requires e.name !in ids
    ensures Registry(ids[e.name := trajId], vecId[trajId := e.index], trajId + 1, p + [e])
  {
    IdsStep(ids, trajId, p, e);
    OrderSnoc(p, e);
    var order := Distinct(NamesOf(p));
    var order' := order + [e.name];
    var vecId' := vecId[trajId := e.index];
    assert e.name !in order;
    forall t | 0 <= t < |order'| ensures LastIndex(p + [e], order'[t]) == Some(vecId'[t]) {
      LastIndexSnoc(p, e, order'[t]);
    }
  }

  /** Visiting a known name at index `k`: its id re-records `k`, every other
      id keeps its index (lines 499-503). */
  lemma {:induction false} RegistryStepKnown(ids: map<string, nat>, vecId: map<nat, nat>, trajId: nat,
                                             p: seq<Entry>, e: Entry)
    requires Registry(ids, vecId, trajId, p)
    requires e.name in ids
    ensures ids[e.name] in vecId
    ensures Registry(ids, vecId[ids[e.name] := e.index], trajId, p + [e])
  {
    IdsStep(ids, trajId, p, e);
    OrderSnoc(p, e);
    var order := Distinct(NamesOf(p));
    assert e.name in SetOf(order);
    var t0 :| 0 <= t0 < |order| && order[t0] == e.name;
    assert ids[e.name] == t0;
    var vecId' := vecId[t0 := e.index];
    forall t | 0 <= t < |order| ensures LastIndex(p + [e], order[t]) == Some(vecId'[t]) {
      LastIndexSnoc(p, e, order[t]);
      if t != t0 {
        assert ids[order[t]] == t;
      }
    }
  }

  // ---------------------------------------------------------------------
  // The first pass (lines 434-447)

  /** Counts the contact trajectories of a trajectory: one per distinct
      contact name. */
  method CountContactTrajectories(traj: Trajectory) returns (nTraj: nat)
    ensures nTraj == |NameSet(traj)|
    ensures nTraj == |TrajectoryOrder(traj)|
  {
    nTraj := 0;
    var contactTrajId: map<string, nat> := map[];
    var i := 0;
    while i < |traj|
      invariant 0 <= i <= |traj|
      invariant IdsFor(contactTrajId, nTraj, FlatEntries(traj[..i]))
    {
      FlatEntriesPrefix(traj, i);
      contactTrajId, nTraj := CountStateContacts(traj[..i], traj[i], contactTrajId, nTraj);
      i := i + 1;
    }
    assert traj[..|traj|] == traj;
    DistinctProps(NamesOf(FlatEntries(traj)));
  }

  /** The inner loop of the first pass over the contacts of state `s`: an
      unseen name is given the next id. */
  method CountStateContacts(ghost ts: Trajectory, s: WholeBodyState, ids0: map<string, nat>, n0: nat)
    returns (ids: map<string, nat>, n: nat)
    requires IdsFor(ids0, n0, FlatEntries(ts))
    ensures IdsFor(ids, n, FlatEntries(ts) + Entries(s.contacts))
  {
    ids, n := ids0, n0;
    var contacts := s.contacts;
    assert FlatEntries(ts) + Entries(contacts)[..0] == FlatEntries(ts);
    var k := 0;
    while k < |contacts|
      invariant 0 <= k <= |contacts|
      invariant IdsFor(ids, n, FlatEntries(ts) + Entries(contacts)[..k])
    {
      ghost var e := Entry(contacts[k].name, k);
      VisitedSnoc(ts, s, k);
      IdsStep(ids, n, FlatEntries(ts) + Entries(contacts)[..k], e);
      if contacts[k].name !in ids {
        ids := ids[contacts[k].name := n];
        n := n + 1;
      }
      k := k + 1;
    }
    assert Entries(contacts)[..|contacts|] == Entries(contacts);
  }

  // ---------------------------------------------------------------------
  // Facts about points and tracks

  lemma {:induction false} EmitCount(keys: seq<string>, s: WholeBodyState, frame: Frame)
    requires NoDup(keys)
    ensures |EmitPoints(keys, s, frame)| == |SetOf(keys) * PresentNames(s.contacts)|
  {
    if keys != [] {
      var init := keys[..|keys| - 1];
      var x := keys[|keys| - 1];
      SnocKeys(keys);
      EmitCount(init, s, frame);
      EmitPointsLast(keys, s, frame);
      PresentIsVisited(s.contacts, x);
      MeetSnoc(SetOf(init), x, PresentNames(s.contacts));
    }
  }

  lemma SnocKeys(keys: seq<string>)
    requires NoDup(keys) && keys != []
    ensures NoDup(keys[..|keys| - 1])
    ensures SetOf(keys) == SetOf(keys[..|keys| - 1]) + {keys[|keys| - 1]}
    ensures keys[|keys| - 1] !in SetOf(keys[..|keys| - 1])
  {
    assert keys == keys[..|keys| - 1] + [keys[|keys| - 1]];
  }

  lemma EmitPointsLast(keys: seq<string>, s: WholeBodyState, frame: Frame)
    requires keys != []
    ensures |EmitPoints(keys, s, frame)| == |EmitPoints(keys[..|keys| - 1], s, frame)|
      + (if Present(s.contacts, keys[|keys| - 1]) then 1 else 0)
  {
  }

  /** Adding an element that is not yet in `a` to `a` adds one to its meet
      with `p` exactly when the element is in `p`. */
  lemma MeetSnoc<T>(a: set<T>, x: T, p: set<T>)
    requires x !in a
    ensures |(a + {x}) * p| == |a * p| + (if x in p then 1 else 0)
  {
    if x in p {
      assert (a + {x}) * p == a * p + {x};
    } else {
      assert (a + {x}) * p == a * p;
    }
  }

  /** However the keys are ordered, a state never gets more points than it
      has contacts, provided no key is visited twice. */
  lemma EmitBound(keys: seq<string>, s: WholeBodyState, frame: Frame)
    requires NoDup(keys)
    ensures |EmitPoints(keys, s, frame)| <= |s.contacts|
  {
    EmitCount(keys, s, frame);
    SubsetCard(SetOf(keys) * PresentNames(s.contacts), PresentNames(s.contacts));
    SetOfCard(NamesOf(Entries(s.contacts)));
  }

  /** A name that has not been visited yet has an empty track. */
  lemma {:induction false} TrackAbsent(ts: Trajectory, n: string, frame: Frame)
    requires n !in NameSet(ts)
    ensures Track(ts, n, frame) == []
  {
    if ts != [] {
      var init := ts[..|ts| - 1];
      var last := ts[|ts| - 1];
      assert ts == init + [last];
      FlatEntriesSnoc(init, last);
      NamesOfAppend(FlatEntries(init), Entries(last.contacts));
      TrackAbsent(init, n, frame);
      PresentIsVisited(last.contacts, n);
    }
  }

  lemma {:induction false} TrackSnoc(ts: Trajectory, s: WholeBodyState, n: string, frame: Frame)
    ensures Track(ts + [s], n, frame) == Track(ts, n, frame) + AsSeq(StatePoint(s, n, frame))
  {
    assert (ts + [s])[..|ts|] == ts;
  }

  /** The ids handed out after visiting a prefix are the first ids of the
      whole pass. */
  lemma {:induction false} OrderPrefix(p: seq<Entry>, q: seq<Entry>)
    requires p <= q
    ensures |Distinct(NamesOf(p))| <= |Distinct(NamesOf(q))|
    ensures Distinct(NamesOf(p)) == Distinct(NamesOf(q))[..|Distinct(NamesOf(p))|]
  {
    assert NamesOf(p) == NamesOf(q)[..|p|];
    DistinctPrefix(NamesOf(q), |p|);
  }

  // ---------------------------------------------------------------------
  // The second pass (lines 470-505): registering the contacts of one state

  /** The bookkeeping part-way through the contacts of state `s`, after
      its first `k` contacts: the registry covers the visits so far and,
      when lines are drawn, every id has its line, sized `n`. */
  ghost predicate RegisterInv(ts: Trajectory, s: WholeBodyState, k: nat, createLines: bool, frame: Frame,
                              ids: map<string, nat>, vecId: map<nat, nat>, trajId: nat,
                              lines: seq<Option<Polyline>>, n: nat)
    requires k <= |s.contacts|
  {
    var visited := FlatEntries(ts) + Entries(s.contacts)[..k];
    && Registry(ids, vecId, trajId, visited)
    && (createLines ==> LinesHold(lines, Distinct(NamesOf(visited)), ts, frame) && |lines| == n)
  }

  lemma RegisterInvStart(ts: Trajectory, s: WholeBodyState, createLines: bool, frame: Frame,
                         ids: map<string, nat>, vecId: map<nat, nat>, trajId: nat, lines: seq<Option<Polyline>>)
    requires Registry(ids, vecId, trajId, FlatEntries(ts))
    requires createLines ==> LinesHold(lines, TrajectoryOrder(ts), ts, frame)
    ensures RegisterInv(ts, s, 0, createLines, frame, ids, vecId, trajId, lines, |lines|)
  {
    assert FlatEntries(ts) + Entries(s.contacts)[..0] == FlatEntries(ts);
  }

  lemma RegisterInvDone(ts: Trajectory, s: WholeBodyState, createLines: bool, frame: Frame,
                        ids: map<string, nat>, vecId: map<nat, nat>, trajId: nat, lines: seq<Option<Polyline>>, n: nat)
    requires RegisterInv(ts, s, |s.contacts|, createLines, frame, ids, vecId, trajId, lines, n)
    ensures Registry(ids, vecId, trajId, FlatEntries(ts + [s]))
    ensures createLines ==> LinesHold(lines, TrajectoryOrder(ts + [s]), ts, frame) && |lines| == n
  {
    FlatEntriesSnoc(ts, s);
    assert Entries(s.contacts)[..|s.contacts|] == Entries(s.contacts);
  }

  lemma VisitedSnoc(ts: Trajectory, s: WholeBodyState, k: nat)
    requires k < |s.contacts|
    ensures FlatEntries(ts) + Entries(s.contacts)[..k + 1]
      == FlatEntries(ts) + Entries(s.contacts)[..k] + [Entry(s.contacts[k].name, k)]
  {
    PrefixSnoc(Entries(s.contacts), k);
  }

  /** Registers the contacts of state `s`, which follows the states `ts`:
      a new name gets the next id and, when the style draws lines, a fresh
      line object in its slot; every visited name records its index. */
  method RegisterContacts(ghost ts: Trajectory, s: WholeBodyState, createLines: bool, ghost frame: Frame,
                          ids0: map<string, nat>, vecId0: map<nat, nat>, trajId0: nat,
                          lines0: seq<Option<Polyline>>)
    returns (ids: map<string, nat>, vecId: map<nat, nat>, trajId: nat, lines: seq<Option<Polyline>>)
    requires Registry(ids0, vecId0, trajId0, FlatEntries(ts))
    requires createLines ==> LinesHold(lines0, TrajectoryOrder(ts), ts, frame)
    requires createLines ==> |TrajectoryOrder(ts + [s])| <= |lines0|
    ensures Registry(ids, vecId, trajId, FlatEntries(ts + [s]))
    ensures createLines ==> LinesHold(lines, TrajectoryOrder(ts + [s]), ts, frame) && |lines| == |lines0|
    ensures !createLines ==> lines == lines0
  {
    ids, vecId, trajId, lines := ids0, vecId0, trajId0, lines0;
    var contacts := s.contacts;
    RegisterInvStart(ts, s, createLines, frame, ids, vecId, trajId, lines);
    var k := 0;
    while k < |contacts|
      invariant 0 <= k <= |contacts|
      invariant RegisterInv(ts, s, k, createLines, frame, ids, vecId, trajId, lines, |lines0|)
      invariant !createLines ==> lines == lines0
    {
      ids, vecId, trajId, lines := RegisterContact(ts, s, k, createLines, frame, ids, vecId, trajId, lines, |lines0|);
      k := k + 1;
    }
    RegisterInvDone(ts, s, createLines, frame, ids, vecId, trajId, lines, |lines0|);
  }

  /** A name without an id has not been visited in the earlier states, so
      its track is still empty. */
  lemma NewNameUnvisited(ts: Trajectory, visited: seq<Entry>, ids: map<string, nat>, trajId: nat,
                         n: string, frame: Frame)
    requires FlatEntries(ts) <= visited
    requires IdsFor(ids, trajId, visited)
    requires n !in ids
    ensures Track(ts, n, frame) == []
  {
    DistinctProps(NamesOf(visited));
    assert NamesOf(FlatEntries(ts)) == NamesOf(visited)[..|FlatEntries(ts)|];
    TrackAbsent(ts, n, frame);
  }

  /** Registers the `k`-th contact of state `s` (the body of the loop of
      lines 474-504). */
  method RegisterContact(ghost ts: Trajectory, s: WholeBodyState, k: nat, createLines: bool, ghost frame: Frame,
                         ids0: map<string, nat>, vecId0: map<nat, nat>, trajId0: nat,
                         lines0: seq<Option<Polyline>>, ghost n: nat)
    returns (ids: map<string, nat>, vecId: map<nat, nat>, trajId: nat, lines: seq<Option<Polyline>>)
    requires k < |s.contacts|
    requires RegisterInv(ts, s, k, createLines, frame, ids0, vecId0, trajId0, lines0, n)
    requires createLines ==> |TrajectoryOrder(ts + [s])| <= n
    ensures RegisterInv(ts, s, k + 1, createLines, frame, ids, vecId, trajId, lines, n)
    ensures !createLines ==> lines == lines0
  {
    ids, vecId, trajId, lines := ids0, vecId0, trajId0, lines0;
    var contact := s.contacts[k];
    ghost var e := Entry(contact.name, k);
    ghost var visited := FlatEntries(ts) + Entries(s.contacts)[..k];
    VisitedSnoc(ts, s, k);
    if createLines {
      LinesStep(lines, ts, visited, ids, trajId, e, frame);
      if contact.name !in ids {
        RegisterBound(ts, s, k, visited, ids, trajId);
      }
    }
    if contact.name !in ids {
      RegistryStepNew(ids, vecId, trajId, visited, e);
      if createLines {
        lines := lines[trajId := Some(Polyline([], false))];
      }
      ids := ids[contact.name := trajId];
      vecId := vecId[trajId := k];
      trajId := trajId + 1;
    } else {
      RegistryStepKnown(ids, vecId, trajId, visited, e);
      var swingIdx := ids[contact.name];
      if k != vecId[swingIdx] {
        vecId := vecId[swingIdx := k];
      }
    }
  }

  /** The line objects follow the ids: a known name changes nothing, an
      unseen one gets a fresh, empty line in the next slot. */
  lemma LinesStep(lines: seq<Option<Polyline>>, ts: Trajectory, visited: seq<Entry>,
                  ids: map<string, nat>, trajId: nat, e: Entry, frame: Frame)
    requires LinesHold(lines, Distinct(NamesOf(visited)), ts, frame)
    requires IdsFor(ids, trajId, visited)
    requires FlatEntries(ts) <= visited
    ensures e.name in ids ==> LinesHold(lines, Distinct(NamesOf(visited + [e])), ts, frame)
    ensures e.name !in ids && trajId < |lines| ==>
      LinesHold(lines[trajId := Some(Polyline([], false))], Distinct(NamesOf(visited + [e])), ts, frame)
  {
    ghost var order := Distinct(NamesOf(visited));
    OrderSnoc(visited, e);
    if e.name in ids {
      assert e.name in SetOf(order);
    } else {
      assert e.name !in SetOf(order);
      NewNameUnvisited(ts, visited, ids, trajId, e.name, frame);
      if trajId < |lines| {
        LinesGrow(lines, order, ts, e.name, frame);
      }
    }
  }

  /** A fresh, empty line for a name that has no track yet. */
  lemma LinesGrow(lines: seq<Option<Polyline>>, order: seq<string>, ts: Trajectory, n: string, frame: Frame)
    requires LinesHold(lines, order, ts, frame)
    requires |order| < |lines|
    requires Track(ts, n, frame) == []
    ensures LinesHold(lines[|order| := Some(Polyline([], false))], order + [n], ts, frame)
  {
  }

  /** There is room for the id an unseen name gets: the line objects were
      sized by the first pass over the whole trajectory. */
  lemma RegisterBound(ts: Trajectory, s: WholeBodyState, k: nat, visited: seq<Entry>,
                      ids: map<string, nat>, trajId: nat)
    requires k < |s.contacts|
    requires visited == FlatEntries(ts) + Entries(s.contacts)[..k]
    requires IdsFor(ids, trajId, visited)
    requires s.contacts[k].name !in ids
    ensures trajId < |TrajectoryOrder(ts + [s])|
  {
    var e := Entry(s.contacts[k].name, k);
    IdsStep(ids, trajId, visited, e);
    FlatEntriesSnoc(ts, s);
    SnocPrefix(FlatEntries(ts), Entries(s.contacts), k);
    OrderPrefix(visited + [e], FlatEntries(ts + [s]));
  }

  lemma SnocPrefix(a: seq<Entry>, b: seq<Entry>, k: nat)
    requires k < |b|
    ensures a + b[..k] + [b[k]] <= a + b
  {
    assert a + b[..k] + [b[k]] == (a + b)[..|a| + k + 1];
  }

  // ---------------------------------------------------------------------
  // The second pass (lines 506-551): drawing the points of one state

  /** The line objects part-way through the points of state `s`: the names
      in `done` have had their point of `s` added. */
  ghost predicate LinesPartial(lines: seq<Option<Polyline>>, order: seq<string>, ts: Trajectory,
                               s: WholeBodyState, done: set<string>, frame: Frame)
  {
    && |order| <= |lines|
    && (forall t :: 0 <= t < |order| ==>
          lines[t] == Some(Polyline(if order[t] in done then Track(ts + [s], order[t], frame)
                                    else Track(ts, order[t], frame), false)))
    && (forall t :: |order| <= t < |lines| ==> lines[t] == None)
  }

  /** The index an id has recorded when a state is drawn names a contact
      of that state exactly when the id's name is present in the state, and
      it is then the index of the name's last contact in the state. */
  lemma RecordedIndex(ts: Trajectory, s: WholeBodyState, ids: map<string, nat>, vecId: map<nat, nat>,
                      trajId: nat, n: string)
    requires Registry(ids, vecId, trajId, FlatEntries(ts + [s]))
    requires n in ids
    ensures ids[n] in vecId
    ensures (vecId[ids[n]] < |s.contacts| && s.contacts[vecId[ids[n]]].name == n) <==> Present(s.contacts, n)
    ensures Present(s.contacts, n) ==> LastIndex(Entries(s.contacts), n) == Some(vecId[ids[n]])
  {
    var p := FlatEntries(ts + [s]);
    var order := Distinct(NamesOf(p));
    DistinctProps(NamesOf(p));
    var t :| 0 <= t < |order| && order[t] == n;
    FlatEntriesSnoc(ts, s);
    LastIndexAppend(FlatEntries(ts), Entries(s.contacts), n);
    PresentIsVisited(s.contacts, n);
    LastIndexIsContact(s.contacts, n);
  }

  /** The key ordering the map visits names the id whose line gets the
      point. */
  lemma KeyId(ids: map<string, nat>, count: nat, p: seq<Entry>, n: string)
    requires IdsFor(ids, count, p)
    requires n in ids
    ensures ids[n] < |Distinct(NamesOf(p))| && Distinct(NamesOf(p))[ids[n]] == n
  {
    var order := Distinct(NamesOf(p));
    var t :| 0 <= t < |order| && order[t] == n;
  }

  /** A line object after the point of a state, if any, is added. */
  function AddTrackPoint(line: Option<Polyline>, q: Option<Vec3>): Option<Polyline>
  {
    match q
    case Some(v) => AddPoint(line, v)
    case None => line
  }

  lemma {:induction false} LinesPartialStep(lines: seq<Option<Polyline>>, order: seq<string>, ts: Trajectory,
                                            s: WholeBodyState, done: set<string>, frame: Frame, n: string, t: nat)
    requires LinesPartial(lines, order, ts, s, done, frame)
    requires NoDup(order)
    requires t < |order| && order[t] == n && n !in done
    ensures LinesPartial(lines[t := AddTrackPoint(lines[t], StatePoint(s, n, frame))], order, ts, s, done + {n}, frame)
  {
    TrackSnoc(ts, s, n, frame);
    var lines' := lines[t := AddTrackPoint(lines[t], StatePoint(s, n, frame))];
    forall u | 0 <= u < |order|
      ensures lines'[u] == Some(Polyline(if order[u] in done + {n} then Track(ts + [s], order[u], frame)
                                         else Track(ts, order[u], frame), false))
    {
      if u != t {
        assert order[u] != n;
      } else {
        assert lines[t] == Some(Polyline(Track(ts, n, frame), false));
        match StatePoint(s, n, frame)
        case Some(v) =>
          assert Track(ts + [s], n, frame) == Track(ts, n, frame) + [v];
          assert lines'[t] == Some(Polyline(Track(ts, n, frame) + [v], false));
        case None =>
          assert Track(ts + [s], n, frame) == Track(ts, n, frame);
      }
    }
  }

  /** The slots of a state after the points of `keys` are drawn. */
  ghost function Slots(keys: seq<string>, s: WholeBodyState, frame: Frame): (r: seq<Option<PointVisual>>)
    requires NoDup(keys)
    ensures |r| == |s.contacts|
  {
    var e := EmitPoints(keys, s, frame);
    EmitBound(keys, s, frame);
    e + Nulls(|s.contacts| - |e|)
  }

  lemma RowStep(keys: seq<string>, n: string, s: WholeBodyState, frame: Frame)
    requires NoDup(keys + [n])
    ensures NoDup(keys)
    ensures StatePoint(s, n, frame).Some? ==>
      && |EmitPoints(keys, s, frame)| < |s.contacts|
      && Slots(keys, s, frame)[|EmitPoints(keys, s, frame)| := Some(PointVisual(StatePoint(s, n, frame).value, frame))]
         == Slots(keys + [n], s, frame)
      && |EmitPoints(keys + [n], s, frame)| == |EmitPoints(keys, s, frame)| + 1
    ensures StatePoint(s, n, frame).None? ==>
      && Slots(keys + [n], s, frame) == Slots(keys, s, frame)
      && |EmitPoints(keys + [n], s, frame)| == |EmitPoints(keys, s, frame)|
  {
    assert (keys + [n])[..|keys|] == keys;
    assert NoDup(keys);
    EmitBound(keys, s, frame);
    EmitBound(keys + [n], s, frame);
  }

  /** Draws the points of state `s`, which follows the states `ts`, after
      its contacts are registered: the names are visited in map order and
      an id is drawn when its recorded index names a contact of `s` with
      the id's own name. Lines and Billboards add the point to the id's
      line; Points fills the state's slots from the front. */
  method EmitContacts(ghost ts: Trajectory, s: WholeBodyState, style: LineStyle, frame: Frame,
                      ids: map<string, nat>, vecId: map<nat, nat>,
                      lines0: seq<Option<Polyline>>, row0: seq<Option<PointVisual>>)
    returns (lines: seq<Option<Polyline>>, row: seq<Option<PointVisual>>)
    requires forall n {:trigger KeyFacts(ts, s, ids, vecId, n, frame)} :: n in ids ==> KeyFacts(ts, s, ids, vecId, n, frame)
    requires SetOf(TrajectoryOrder(ts + [s])) <= ids.Keys
    requires style != Points ==> LinesHold(lines0, TrajectoryOrder(ts + [s]), ts, frame)
    requires style == Points ==> row0 == Nulls(|s.contacts|)
    ensures style != Points ==>
      LinesHold(lines, TrajectoryOrder(ts + [s]), ts + [s], frame) && |lines| == |lines0| && row == row0
    ensures style == Points ==>
      row == Slots(SortedNames(ids.Keys), s, frame) && lines == lines0
  {
    lines, row := lines0, row0;
    var contactIdx := 0;
    var remaining := ids.Keys;
    ghost var done: seq<string> := [];
    assert SetOf(done) == {};
    while remaining != {}
      invariant Visiting(ids.Keys, done, remaining)
      invariant EmitInv(ts, s, style, frame, lines0, row0, done, lines, row, contactIdx)
      decreases |SortedNames(ids.Keys)| - |done|
    {
      LeastExists(remaining);
      var n :| n in remaining && forall m :: m in remaining ==> NameLe(n, m);
      VisitStep(ids.Keys, done, remaining, n);
      VisitFacts(ids.Keys, done, remaining, n);
      lines, row, contactIdx := EmitContact(ts, s, style, frame, ids, vecId, n, done, lines0, row0, lines, row, contactIdx);
      done := done + [n];
      remaining := remaining - {n};
    }
    VisitDone(ids.Keys, done);
    if style != Points {
      LinesPartialDone(lines, TrajectoryOrder(ts + [s]), ts, s, SetOf(done), frame);
    }
  }

  /** Part-way through the map in `EmitContacts`: the names in `done` have
      had their point of `s` added to their line (a line style) or to the
      next free slot (Points style); nothing else has changed since
      `lines0` and `row0`. */
  ghost predicate EmitInv(ts: Trajectory, s: WholeBodyState, style: LineStyle, frame: Frame,
                          lines0: seq<Option<Polyline>>, row0: seq<Option<PointVisual>>,
                          done: seq<string>, lines: seq<Option<Polyline>>, row: seq<Option<PointVisual>>,
                          contactIdx: nat)
  {
    && (style != Points ==>
          LinesPartial(lines, TrajectoryOrder(ts + [s]), ts, s, SetOf(done), frame) && |lines| == |lines0| && row == row0)
    && (style == Points ==>
          NoDup(done) && lines == lines0 && row == Slots(done, s, frame) && contactIdx == |EmitPoints(done, s, frame)|)
  }

  /** Once every id's name is done, the lines hold the tracks over `s` too. */
  lemma LinesPartialDone(lines: seq<Option<Polyline>>, order: seq<string>, ts: Trajectory,
                         s: WholeBodyState, done: set<string>, frame: Frame)
    requires LinesPartial(lines, order, ts, s, done, frame)
    requires SetOf(order) <= done
    ensures LinesHold(lines, order, ts + [s], frame)
  {
    forall t | 0 <= t < |order| ensures order[t] in done {
      assert order[t] in SetOf(order);
    }
  }

  /** What drawing the point of name `n` needs to know of the bookkeeping:
      its id's line, and when its recorded index names its own contact. */
  ghost predicate KeyFacts(ts: Trajectory, s: WholeBodyState, ids: map<string, nat>, vecId: map<nat, nat>,
                           n: string, frame: Frame)
  {
    var order := TrajectoryOrder(ts + [s]);
    && n in ids && ids[n] in vecId && NoDup(order)
    && ids[n] < |order| && order[ids[n]] == n
    && ((vecId[ids[n]] < |s.contacts| && s.contacts[vecId[ids[n]]].name == n) <==> Present(s.contacts, n))
    && (vecId[ids[n]] < |s.contacts| && s.contacts[vecId[ids[n]]].name == n ==>
          StatePoint(s, n, frame) == Some(Placed(frame, s.contacts[vecId[ids[n]]].position)))
  }

  /** After registering state `s`, every name knows what drawing it needs. */
  lemma KeyFactsHold(ts: Trajectory, s: WholeBodyState, ids: map<string, nat>, vecId: map<nat, nat>,
                     trajId: nat, frame: Frame)
    requires Registry(ids, vecId, trajId, FlatEntries(ts + [s]))
    ensures forall n {:trigger KeyFacts(ts, s, ids, vecId, n, frame)} :: n in ids ==> KeyFacts(ts, s, ids, vecId, n, frame)
    ensures SetOf(TrajectoryOrder(ts + [s])) <= ids.Keys
  {
    DistinctProps(NamesOf(FlatEntries(ts + [s])));
    forall n | n in ids ensures KeyFacts(ts, s, ids, vecId, n, frame) {
      KeyId(ids, trajId, FlatEntries(ts + [s]), n);
      RecordedIndex(ts, s, ids, vecId, trajId, n);
    }
  }

  /** Draws the point of name `n` in state `s`, when the index its id
      recorded names a contact of `s` with that name (the body of the loop
      of lines 512-550). */
  method EmitContact(ghost ts: Trajectory, s: WholeBodyState, style: LineStyle, frame: Frame,
                     ids: map<string, nat>, vecId: map<nat, nat>, n: string,
                     ghost done: seq<string>, ghost linesStart: seq<Option<Polyline>>,
                     ghost rowStart: seq<Option<PointVisual>>,
                     lines0: seq<Option<Polyline>>, row0: seq<Option<PointVisual>>, contactIdx0: nat)
    returns (lines: seq<Option<Polyline>>, row: seq<Option<PointVisual>>, contactIdx: nat)
    requires KeyFacts(ts, s, ids, vecId, n, frame)
    requires NoDup(done) && n !in done
    requires EmitInv(ts, s, style, frame, linesStart, rowStart, done, lines0, row0, contactIdx0)
    ensures EmitInv(ts, s, style, frame, linesStart, rowStart, done + [n], lines, row, contactIdx)
  {
    lines, row, contactIdx := lines0, row0, contactIdx0;
    assert SetOf(done + [n]) == SetOf(done) + {n};
    var traj := ids[n];
    var id := vecId[traj];
    if style != Points {
      LinesPartialStep(lines, TrajectoryOrder(ts + [s]), ts, s, SetOf(done), frame, n, traj);
    } else {
      assert NoDup(done + [n]);
      RowStep(done, n, s, frame);
    }
    var contacts := s.contacts;
    if id < |contacts| && contacts[id].name == n {
      var contactPosition := Sanitize(contacts[id].position);
      var pointPosition := Apply(frame, contactPosition);
      match style {
        case Billboards =>
          lines := lines[traj := AddPoint(lines[traj], pointPosition)];
        case Lines =>
          lines := lines[traj := AddPoint(lines[traj], pointPosition)];
        case Points =>
          row := row[contactIdx := Some(PointVisual(pointPosition, frame))];
          contactIdx := contactIdx + 1;
      }
    }
  }

  // ---------------------------------------------------------------------
  // The whole pass (lines 410-563)

  /** Once the ids cover every slot, the line objects are the contact
      trajectories. */
  lemma LinesHoldAll(lines: seq<Option<Polyline>>, ts: Trajectory, frame: Frame)
    requires LinesHold(lines, TrajectoryOrder(ts), ts, frame)
    requires |lines| == |TrajectoryOrder(ts)|
    ensures lines == ContactLines(ts, frame, false)
  {
  }

  /** `end()` on the first `count` line objects (lines 557-561). */
  method EndLines(lines0: seq<Option<Polyline>>, count: nat) returns (lines: seq<Option<Polyline>>)
    requires count <= |lines0|
    ensures |lines| == |lines0|
    ensures forall u :: 0 <= u < |lines| ==> lines[u] == if u < count then End(lines0[u]) else lines0[u]
  {
    lines := lines0;
    var t := 0;
    while t < count
      invariant 0 <= t <= count && |lines| == |lines0|
      invariant forall u :: 0 <= u < |lines| ==> lines[u] == if u < t then End(lines0[u]) else lines0[u]
    {
      lines := lines[t := End(lines[t])];
      t := t + 1;
    }
  }

  /** Registers and draws state `s`, which follows the states `ts` (the
      body of the loop of lines 470-552). */
  method ProcessState(ghost ts: Trajectory, s: WholeBodyState, style: LineStyle, frame: Frame,
                      ids0: map<string, nat>, vecId0: map<nat, nat>, trajId0: nat,
                      lines0: seq<Option<Polyline>>)
    returns (ids: map<string, nat>, vecId: map<nat, nat>, trajId: nat, lines: seq<Option<Polyline>>,
             row: seq<Option<PointVisual>>)
    requires Registry(ids0, vecId0, trajId0, FlatEntries(ts))
    requires style != Points ==>
      LinesHold(lines0, TrajectoryOrder(ts), ts, frame) && |TrajectoryOrder(ts + [s])| <= |lines0|
    ensures Registry(ids, vecId, trajId, FlatEntries(ts + [s]))
    ensures style != Points ==>
      LinesHold(lines, TrajectoryOrder(ts + [s]), ts + [s], frame) && |lines| == |lines0|
    ensures style == Points ==> row == Slots(SortedNames(NameSet(ts + [s])), s, frame)
  {
    ids, vecId, trajId, lines := RegisterContacts(ts, s, style != Points, frame, ids0, vecId0, trajId0, lines0);
    row := [];
    if style == Points {
      row := Nulls(|s.contacts|);
    }
    KeyFactsHold(ts, s, ids, vecId, trajId, frame);
    lines, row := EmitContacts(ts, s, style, frame, ids, vecId, lines, row);
    DistinctProps(NamesOf(FlatEntries(ts + [s])));
  }

  /** The second pass over all states (lines 470-552) in a line style,
      starting from the `nTraj` reset line objects of lines 453-462: the
      line objects end up holding every name's track, and as many ids are
      handed out as there are names. */
  method DrawLines(traj: Trajectory, style: LineStyle, frame: Frame, nTraj: nat)
    returns (lines: seq<Option<Polyline>>, trajId: nat)
    requires style != Points
    requires nTraj == |TrajectoryOrder(traj)| == |NameSet(traj)|
    ensures LinesHold(lines, TrajectoryOrder(traj), traj, frame) && |lines| == nTraj && trajId == nTraj
  {
    var ids: map<string, nat> := map[];
    var vecId: map<nat, nat> := map[];
    lines, trajId := Nulls(nTraj), 0;
    var i := 0;
    ghost var done: Trajectory := [];
    while i < |traj|
      invariant 0 <= i <= |traj| && done == traj[..i]
      invariant Registry(ids, vecId, trajId, FlatEntries(done))
      invariant LinesHold(lines, TrajectoryOrder(done), done, frame) && |lines| == nTraj
    {
      var state := traj[i];
      PrefixOfWhole(traj, i + 1);
      assert traj[..i + 1] == done + [state];
      PrefixIdsBound(traj, FlatEntries(done + [state]));
      var row;
      ids, vecId, trajId, lines, row := ProcessState(done, state, style, frame, ids, vecId, trajId, lines);
      done := done + [state];
      i := i + 1;
    }
    assert done == traj;
  }

  /** The second pass over all states (lines 470-552) in Points style,
      starting from the empty point vectors of lines 463-467: every state
      gets its slots. */
  method DrawPoints(traj: Trajectory, frame: Frame) returns (points: seq<seq<Option<PointVisual>>>)
    ensures points == ContactPointSlots(traj, frame)
  {
    var ids: map<string, nat> := map[];
    var vecId: map<nat, nat> := map[];
    var lines: seq<Option<Polyline>> := [];
    var trajId := 0;
    points := seq(|traj|, _ => []);
    var i := 0;
    ghost var done: Trajectory := [];
    while i < |traj|
      invariant 0 <= i <= |traj| && done == traj[..i] && |points| == |traj|
      invariant Registry(ids, vecId, trajId, FlatEntries(done))
      invariant forall j :: 0 <= j < i ==> points[j] == StateSlots(traj, j, frame)
    {
      var state := traj[i];
      assert traj[..i + 1] == done + [state];
      var row;
      ids, vecId, trajId, lines, row := ProcessState(done, state, Points, frame, ids, vecId, trajId, lines);
      points := points[i := row];
      done := done + [state];
      i := i + 1;
    }
    assert |points| == |ContactPointSlots(traj, frame)|;
    assert forall j :: 0 <= j < |points| ==> points[j] == ContactPointSlots(traj, frame)[j];
  }

  /** The visuals `processContactTrajectory` builds for a trajectory in the
      fixed frame reached through `frame`: in Billboards style one open
      line per contact name, in Lines style the same lines ended, in Points
      style one slot vector per state. The containers of the other styles
      are left as they were. */
  method BuildContactTrajectories(traj: Trajectory, style: LineStyle, frame: Frame,
                                  billboards0: seq<Option<Polyline>>, manuals0: seq<Option<Polyline>>,
                                  points0: seq<seq<Option<PointVisual>>>)
    returns (billboards: seq<Option<Polyline>>, manuals: seq<Option<Polyline>>,
             points: seq<seq<Option<PointVisual>>>)
    ensures style == Billboards ==>
      billboards == ContactLines(traj, frame, false) && manuals == manuals0 && points == points0
    ensures style == Lines ==>
      manuals == ContactLines(traj, frame, true) && billboards == billboards0 && points == points0
    ensures style == Points ==>
      points == ContactPointSlots(traj, frame) && billboards == billboards0 && manuals == manuals0
  {
    billboards, manuals, points := billboards0, manuals0, points0;
    var nTraj := CountContactTrajectories(traj);
    match style {
      case Billboards =>
        var lines, trajId := DrawLines(traj, style, frame, nTraj);
        LinesHoldAll(lines, traj, frame);
        billboards := lines;
      case Lines =>
        var lines, trajId := DrawLines(traj, style, frame, nTraj);
        LinesHoldAll(lines, traj, frame);
        manuals := EndLines(lines, trajId);
      case Points =>
        points := DrawPoints(traj, frame);
    }
  }

  // ---------------------------------------------------------------------
  // What the drawn visuals show

  lemma NameSetSnoc(ts: Trajectory, s: WholeBodyState)
    ensures NameSet(ts + [s]) == NameSet(ts) + PresentNames(s.contacts)
  {
    FlatEntriesSnoc(ts, s);
    NamesOfAppend(FlatEntries(ts), Entries(s.contacts));
    assert SetOf(NamesOf(FlatEntries(ts)) + NamesOf(Entries(s.contacts))) ==
      SetOf(NamesOf(FlatEntries(ts))) + SetOf(NamesOf(Entries(s.contacts)));
  }

  /** A contact trajectory has a point exactly when its name occurs in the
      trajectory, and at most one point per state. */
  lemma {:induction false} TrackShape(ts: Trajectory, n: string, frame: Frame)
    ensures Track(ts, n, frame) != [] <==> n in NameSet(ts)
    ensures |Track(ts, n, frame)| <= |ts|
  {
    if ts != [] {
      var init := ts[..|ts| - 1];
      var last := ts[|ts| - 1];
      assert ts == init + [last];
      TrackShape(init, n, frame);
      NameSetSnoc(init, last);
      PresentIsVisited(last.contacts, n);
    }
  }

  /** Every line object of a Billboards or Lines pass shows the points of
      one contact name, a different name per line, and no line is empty. */
  lemma ContactLinesShape(ts: Trajectory, frame: Frame, ended: bool)
    ensures |ContactLines(ts, frame, ended)| == |NameSet(ts)|
    ensures forall t, u :: 0 <= t < u < |TrajectoryOrder(ts)| ==> TrajectoryOrder(ts)[t] != TrajectoryOrder(ts)[u]
    ensures forall t :: 0 <= t < |ContactLines(ts, frame, ended)| ==>
      ContactLines(ts, frame, ended)[t].Some? && ContactLines(ts, frame, ended)[t].value.points != []
  {
    var order := TrajectoryOrder(ts);
    DistinctProps(NamesOf(FlatEntries(ts)));
    forall t | 0 <= t < |order| ensures Track(ts, order[t], frame) != [] {
      assert order[t] in SetOf(order);
      TrackShape(ts, order[t], frame);
    }
  }

  /** In Points style state `i` gets exactly one point per contact name it
      holds, and the rest of its slots stay reset. */
  lemma StateSlotsCount(ts: Trajectory, i: nat, frame: Frame)
    requires i < |ts|
    ensures |EmitPoints(SortedNames(NameSet(ts[..i + 1])), ts[i], frame)| == |PresentNames(ts[i].contacts)|
  {
    var keys := SortedNames(NameSet(ts[..i + 1]));
    assert ts[..i + 1] == ts[..i] + [ts[i]];
    NameSetSnoc(ts[..i], ts[i]);
    EmitCount(keys, ts[i], frame);
    assert SetOf(keys) == NameSet(ts[..i + 1]);
    assert SetOf(keys) * PresentNames(ts[i].contacts) == PresentNames(ts[i].contacts);
  }

  // ---------------------------------------------------------------------
  // The stale recorded index (line 516)

  /** How many of `keys` a state draws as written at line 516: an id is
      drawn whenever the index it recorded is below the state's number of
      contacts, whatever contact that index names. */
  function AsWrittenDrawCount(keys: seq<string>, ids: map<string, nat>, vecId: map<nat, nat>,
                              nContacts: nat): (r: nat)
    ensures r <= |keys|
  {
    if keys == [] then 0
    else
      var n := keys[|keys| - 1];
      var drawn := n in ids && ids[n] in vecId && vecId[ids[n]] < nContacts;
      AsWrittenDrawCount(keys[..|keys| - 1], ids, vecId, nContacts) + (if drawn then 1 else 0)
  }

  function ContactAt(name: string): ContactState
  {
    ContactState(name, 0, DZero3, Zero3, Zero3, 0.0)
  }

  /** Two states: the first holds contacts A and B, the second only B. */
  function StaleExample(): Trajectory
  {
    var c := Centroidal(DZero3, DQuat(Finite(0.0), Finite(0.0), Finite(0.0), Finite(1.0)), Zero3);
    [WholeBodyState(c, [ContactAt("A"), ContactAt("B")]), WholeBodyState(c, [ContactAt("B")])]
  }

  /** With the bookkeeping of lines 470-505 after the example, the test of
      line 516 draws both A and B in the second state, which has one
      contact: two points go into a slot vector of size one, and A is drawn
      at the position of B. Drawing only ids whose recorded index names
      their own contact draws one point. */
  lemma StaleIndexOverflow(ids: map<string, nat>, vecId: map<nat, nat>, trajId: nat, frame: Frame)
    requires Registry(ids, vecId, trajId, FlatEntries(StaleExample()))
    ensures AsWrittenDrawCount(["A", "B"], ids, vecId, |StaleExample()[1].contacts|) == 2
    ensures |StaleExample()[1].contacts| == 1
    ensures "A" in ids && ids["A"] in vecId && vecId[ids["A"]] == 0
    ensures StaleExample()[1].contacts[0].name == "B"
    ensures |EmitPoints(["A", "B"], StaleExample()[1], frame)| == 1
  {
    var ex := StaleExample();
    var p := StaleEntries();
    assert Distinct(NamesOf(p)) == ["A", "B"] by { StaleOrder(); }
    assert LastIndex(p, "A") == Some(0) && LastIndex(p, "B") == Some(0) by { StaleLastIndex(); }
    assert ids["A"] == 0 && ids["B"] == 1;
    assert vecId[0] == 0 && vecId[1] == 0;
    assert ["A", "B"][..1] == ["A"];
    assert !Present(ex[1].contacts, "A");
    assert Present(ex[1].contacts, "B");
    assert ["A"][..0] == [];
    assert EmitPoints(["A"], ex[1], frame) == [];
  }

  lemma StaleEntries() returns (p: seq<Entry>)
    ensures p == FlatEntries(StaleExample())
    ensures p == [Entry("A", 0), Entry("B", 1), Entry("B", 0)]
  {
    var ex := StaleExample();
    var ea, eb := Entry("A", 0), Entry("B", 1);
    assert Entries(ex[0].contacts) == [ea, eb];
    assert Entries(ex[1].contacts) == [Entry("B", 0)];
    assert ex[..1] == [ex[0]];
    assert FlatEntries([ex[0]]) == [ea, eb];
    p := [ea, eb, Entry("B", 0)];
  }

  lemma StaleOrder()
    ensures Distinct(NamesOf([Entry("A", 0), Entry("B", 1), Entry("B", 0)])) == ["A", "B"]
  {
    var names := NamesOf([Entry("A", 0), Entry("B", 1), Entry("B", 0)]);
    assert names == ["A", "B", "B"];
    assert names[..2] == ["A", "B"];
    assert names[..2][..1] == ["A"];
    assert Distinct(["A"]) == ["A"];
    assert Distinct(["A", "B"]) == ["A", "B"];
  }

  lemma StaleLastIndex()
    ensures LastIndex([Entry("A", 0), Entry("B", 1), Entry("B", 0)], "A") == Some(0)
    ensures LastIndex([Entry("A", 0), Entry("B", 1), Entry("B", 0)], "B") == Some(0)
  {
    var p := [Entry("A", 0), Entry("B", 1), Entry("B", 0)];
    assert p[..2] == [Entry("A", 0), Entry("B", 1)];
    assert p[..2][..1] == [Entry("A", 0)];
  }
}
