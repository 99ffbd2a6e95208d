/**
 Accounting (src/acct/oneacct.rb): running slices of virtual machines are selected by a filter,
 clipped to a period, and grouped by user and by machine with the time of each group.

 Times are whole seconds. The charge of a slice is compared with the set of seconds it has in
 common with the period; bills over periods and the two-level grouping are sums of charges.
 */
module Accounting {
  import opened Wrappers

  /** A register row joined with its machine; `retime` is 0 while the machine runs. */
  datatype Slice = Slice(uid: int, vmId: int, rstime: nat, retime: nat)

  datatype Filters = Filters(start: Option<nat>, end: Option<nat>, user: Option<int>)

  /** The query of `get_vm_slices`. */
  predicate Selected(f: Filters, s: Slice) {
    && (f.user.Some? ==> s.uid == f.user.value)
    && (f.start.Some? ==> s.retime == 0 || s.retime > f.start.value)
    && (f.end.Some? ==> s.rstime <= f.end.value)
  }

  /** `nil.to_i` is 0 in Ruby. */
  function ToI(t: Option<nat>): nat {
    if t.Some? then t.value else 0
  }

  /** The end of the period: now, when none is given. */
  function PeriodEnd(f: Filters, now: nat): nat {
    if ToI(f.end) == 0 then now else f.end.value
  }

  function Max(a: int, b: int): int {
    if a < b then b else a
  }

  function Time(s: Slice, start: int, end: int): int {
    (if s.retime > end || s.retime == 0 then end else s.retime) - Max(s.rstime, start)
  }

  method CalculateTime(s: Slice, f: Filters, now: nat) returns (time: int)
    ensures time == Time(s, ToI(f.start), PeriodEnd(f, now))
  {
    var ts: int, te: int := s.rstime, s.retime;
    var pstart, pend := ToI(f.start), ToI(f.end);
    if pend == 0 {
      pend := now;
    }
    if ts < pstart {
      ts := pstart;
    }
    if te > pend || te == 0 {
      te := pend;
    }
    time := te - ts;
  }

  // ---------------------------------------------------------------------------
  // One slice
  // ---------------------------------------------------------------------------

  /** The slice does not end before it starts. */
  predicate Proper(s: Slice) {
    s.retime == 0 || s.rstime <= s.retime
  }

  /** True of every number; gives the set below a term to be matched on. */
  predicate IsSecond(x: int) {
    true
  }

  /** The seconds from `start` up to `end` in which the machine ran. */
  ghost function Seconds(s: Slice, start: int, end: int): set<int> {
    set x: int | start <= x < end && IsSecond(x) && s.rstime <= x && (s.retime == 0 || x < s.retime)
  }

  lemma {:induction false} SizeOfInterval(seconds: set<int>, low: int, high: int)
    requires low <= high
    requires forall x :: x in seconds <==> low <= x < high
    ensures |seconds| == high - low
    decreases high - low
  {
    if low == high {
      forall x ensures x !in seconds {}
      assert seconds == {};
    } else {
      assert high - 1 in seconds;
      SizeOfInterval(seconds - {high - 1}, low, high - 1);
    }
  }

  /** What a slice costs in a period: nothing if the query drops it. */
  function Charge(f: Filters, s: Slice, now: nat): int {
    if Selected(f, s) then Time(s, ToI(f.start), PeriodEnd(f, now)) else 0
  }

  /** The seconds that the filters mean: of the given user only, if one is given. */
  ghost function Due(f: Filters, s: Slice, now: nat): set<int> {
    if f.user.Some? && s.uid != f.user.value then {} else Seconds(s, ToI(f.start), PeriodEnd(f, now))
  }

  /**
   Whether the charge of a slice is its time in the period: the guard that `account` does not have.
   The slice is another user's, or over before the period, or begins after its end, or the period
   is not over before the slice or the period itself begins. Only an end of 0, which reads as now to
   the clock but as 0 to the query, makes the third case doubtful.
   */
  predicate Sound(f: Filters, s: Slice, now: nat) {
    || (f.user.Some? && s.uid != f.user.value)
    || (f.start.Some? && 0 < s.retime <= f.start.value)
    || (f.end.Some? && f.end.value < s.rstime
        && (|| f.end.value != 0
            || s.rstime >= now || ToI(f.start) >= now
            || 0 < s.retime <= Max(s.rstime, ToI(f.start))))
    || ((f.end.Some? ==> s.rstime <= f.end.value) && Max(s.rstime, ToI(f.start)) <= PeriodEnd(f, now))
  }

  /**
   The charge is exactly the number of seconds due if and only if the slice is `Sound`: then it is
   never negative, what the query drops has no second due, and another user's slice costs nothing.
   */
  lemma ChargeIsOverlap(f: Filters, s: Slice, now: nat)
    requires Proper(s)
    ensures Charge(f, s, now) == |Due(f, s, now)| <==> Sound(f, s, now)
  {
    if ToI(f.start) <= PeriodEnd(f, now) {
      OverlapSize(s, ToI(f.start), PeriodEnd(f, now));
    } else {
      forall x ensures x !in Seconds(s, ToI(f.start), PeriodEnd(f, now)) {}
      assert Seconds(s, ToI(f.start), PeriodEnd(f, now)) == {};
    }
  }

  /** The period begins at `start`; without a start, at 0. */
  predicate Begins(f: Filters, start: nat) {
    match f.start
    case Some(given) => start == given
    case None => start == 0
  }

  /** With an end that is neither 0 nor before the start, the charge is the time up to that end. */
  lemma ExplicitPeriod(f: Filters, s: Slice, start: nat, end: nat, now: nat)
    requires Proper(s) && Begins(f, start)
    requires f.end == Some(end) && end != 0 && start <= end
    ensures Charge(f, s, now) == if f.user.Some? && s.uid != f.user.value then 0 else |Seconds(s, start, end)|
  {
    ChargeIsOverlap(f, s, now);
  }

  /** Without an end the charge is the time up to now, for slices and periods that begin by now. */
  lemma OpenPeriod(f: Filters, s: Slice, start: nat, now: nat)
    requires Proper(s) && Begins(f, start)
    requires f.end == None && start <= now && s.rstime <= now
    ensures Charge(f, s, now) == if f.user.Some? && s.uid != f.user.value then 0 else |Seconds(s, start, now)|
  {
    ChargeIsOverlap(f, s, now);
  }

  lemma OverlapSize(s: Slice, start: int, end: int)
    requires Proper(s) && start <= end
    ensures |Seconds(s, start, end)| == Max(0, Time(s, start, end))
  {
    var seconds := Seconds(s, start, end);
    var low := Max(s.rstime, start);
    var high := Max(low, if s.retime > end || s.retime == 0 then end else s.retime);
    forall x ensures x in seconds <==> low <= x < high {
      assert IsSecond(x);
    }
    SizeOfInterval(seconds, low, high);
  }

  function Period(start: nat, end: nat, user: Option<int>): Filters {
    Filters(Some(start), Some(end), user)
  }

  /** Splitting a period at any second splits the charge. */
  lemma ChargeSplits(s: Slice, start: nat, mid: nat, end: nat, user: Option<int>, now: nat)
    requires Proper(s) && start <= mid <= end && 0 < mid
    ensures Charge(Period(start, end, user), s, now)
         == Charge(Period(start, mid, user), s, now) + Charge(Period(mid, end, user), s, now)
  {
  }

  // ---------------------------------------------------------------------------
  // Sums and groups
  // ---------------------------------------------------------------------------

  function Sum(ss: seq<Slice>, w: Slice -> int): int {
    if ss == [] then 0 else Sum(ss[..|ss| - 1], w) + w(ss[|ss| - 1])
  }

  /** The slices that satisfy `p`, in order. */
  function Select(ss: seq<Slice>, p: Slice -> bool): seq<Slice> {
    if ss == [] then []
    else Select(ss[..|ss| - 1], p) + if p(ss[|ss| - 1]) then [ss[|ss| - 1]] else []
  }

  function OfUser(ss: seq<Slice>, u: int): seq<Slice> {
    Select(ss, (s: Slice) => s.uid == u)
  }

  function OfVm(ss: seq<Slice>, v: int): seq<Slice> {
    Select(ss, (s: Slice) => s.vmId == v)
  }

  function SumOver(keys: seq<int>, g: int -> int): int {
    if keys == [] then 0 else SumOver(keys[..|keys| - 1], g) + g(keys[|keys| - 1])
  }

  lemma {:induction false} SumOfSelect(ss: seq<Slice>, p: Slice -> bool, w: Slice -> int)
    ensures Sum(Select(ss, p), w) == Sum(ss, (s: Slice) => if p(s) then w(s) else 0)
  {
    if ss != [] {
      var init, last := ss[..|ss| - 1], ss[|ss| - 1];
      SumOfSelect(init, p, w);
      var kept := Select(init, p);
      assert (kept + [last])[..|kept|] == kept;
      assert kept + [] == kept;
    }
  }

  /** One more slice counts once, under its own key. */
  lemma {:induction false} SumOverBump(keys: seq<int>, g: int -> int, h: int -> int, key: int, d: int)
    requires Distinct(keys)
    requires forall k :: h(k) == g(k) + if k == key then d else 0
    ensures SumOver(keys, h) == SumOver(keys, g) + if key in keys then d else 0
  {
    if keys != [] {
      var init, last := keys[..|keys| - 1], keys[|keys| - 1];
      assert keys == init + [last];
      assert last !in init;
      SumOverBump(init, g, h, key, d);
    }
  }

  /** The parts of a list under keys that cover it add up to the list. */
  lemma {:induction false} PartsAddUp(ss: seq<Slice>, key: Slice -> int, keys: seq<int>, w: Slice -> int)
    requires Distinct(keys)
    requires forall s :: s in ss ==> key(s) in keys
    ensures SumOver(keys, (k: int) => Sum(Select(ss, (s: Slice) => key(s) == k), w)) == Sum(ss, w)
  {
    var g := (k: int) => Sum(Select(ss, (s: Slice) => key(s) == k), w);
    if ss == [] {
      AllZero(keys, g);
    } else {
      var init, last := ss[..|ss| - 1], ss[|ss| - 1];
      assert last in ss;
      assert forall s :: s in init ==> s in ss;
      PartsAddUp(init, key, keys, w);
      var g0 := (k: int) => Sum(Select(init, (s: Slice) => key(s) == k), w);
      forall k ensures g(k) == g0(k) + if k == key(last) then w(last) else 0 {
        var part := Select(init, (s: Slice) => key(s) == k);
        assert (part + [last])[..|part|] == part;
        assert part + [] == part;
      }
      SumOverBump(keys, g0, g, key(last), w(last));
    }
  }

  lemma {:induction false} AllZero(keys: seq<int>, g: int -> int)
    requires forall k :: g(k) == 0
    ensures SumOver(keys, g) == 0
  {
    if keys != [] { AllZero(keys[..|keys| - 1], g); }
  }

  // ---------------------------------------------------------------------------
  // The account
  // ---------------------------------------------------------------------------

  datatype VmUse = VmUse(slices: seq<Slice>, time: int)

  /** A Ruby hash, which keeps the order in which its keys came. */
  datatype Hash<+V> = Hash(keys: seq<int>, at: map<int, V>)

  ghost predicate ValidHash<V>(h: Hash<V>) {
    Distinct(h.keys) && forall k :: k in h.keys <==> k in h.at
  }

  /** Every user that occurs has an entry, which lists their slices in order. */
  ghost predicate Grouped(users: Hash<seq<Slice>>, query: seq<Slice>) {
    && ValidHash(users)
    && (forall u :: u in users.keys <==> OfUser(query, u) != [])
    && forall u :: u in users.keys ==> users.at[u] == OfUser(query, u)
  }

  method SlicesByUser(query: seq<Slice>) returns (users: Hash<seq<Slice>>)
    ensures Grouped(users, query)
  {
    hide Grouped, OfUser;
    users := Hash([], map[]);
    NothingGrouped();
    assert query[..0] == [];
    for i := 0 to |query|
      invariant Grouped(users, query[..i])
    {
      var reg := query[i];
      ghost var was := users;
      if reg.uid !in users.at {
        users := Hash(users.keys + [reg.uid], users.at[reg.uid := []]);
      }
      OneMore(was, users, query[..i], reg);
      users := Hash(users.keys, users.at[reg.uid := users.at[reg.uid] + [reg]]);
      assert query[..i + 1] == query[..i] + [reg];
    }
    assert query[..|query|] == query;
  }

  lemma NothingGrouped()
    ensures Grouped(Hash([], map[]), [])
  {
  }

  lemma OneMore(was: Hash<seq<Slice>>, users: Hash<seq<Slice>>, query: seq<Slice>, reg: Slice)
    requires Grouped(was, query)
    requires users == if reg.uid in was.at then was else Hash(was.keys + [reg.uid], was.at[reg.uid := []])
    ensures reg.uid in users.at
    ensures Grouped(Hash(users.keys, users.at[reg.uid := users.at[reg.uid] + [reg]]), query + [reg])
  {
    hide OfUser;
    var more := Hash(users.keys, users.at[reg.uid := users.at[reg.uid] + [reg]]);
    forall u ensures u in more.keys <==> OfUser(query + [reg], u) != [] {
      OfUserMore(query, reg, u);
      assert u in more.keys <==> u in was.keys || u == reg.uid;
    }
    forall u | u in more.keys ensures more.at[u] == OfUser(query + [reg], u) {
      OfUserMore(query, reg, u);
    }
  }

  lemma OfUserMore(query: seq<Slice>, reg: Slice, u: int)
    ensures OfUser(query + [reg], u) == OfUser(query, u) + if u == reg.uid then [reg] else []
  {
    assert (query + [reg])[..|query|] == query;
  }

  lemma {:induction false} SelectKeeps(ss: seq<Slice>, p: Slice -> bool, s: Slice)
    ensures s in Select(ss, p) <==> s in ss && p(s)
  {
    if ss != [] {
      SelectKeeps(ss[..|ss| - 1], p, s);
      assert ss == ss[..|ss| - 1] + [ss[|ss| - 1]];
    }
  }

  predicate Sorted(ids: seq<int>) {
    forall i, j :: 0 <= i < j < |ids| ==> ids[i] < ids[j]
  }

  /** `sort.uniq` of the machine ids of some slices. */
  method SortUniq(slices: seq<Slice>) returns (ids: seq<int>)
    ensures Sorted(ids)
    ensures forall v :: v in ids <==> exists i :: 0 <= i < |slices| && slices[i].vmId == v
  {
    ids := [];
    for i := 0 to |slices|
      invariant Sorted(ids)
      invariant forall v :: v in ids <==> exists j :: 0 <= j < i && slices[j].vmId == v
    {
      InsertSorted(ids, slices[i].vmId);
      forall v ensures v in Insert(ids, slices[i].vmId) <==> v in ids || v == slices[i].vmId {
        InsertHolds(ids, slices[i].vmId, v);
      }
      ids := Insert(ids, slices[i].vmId);
    }
  }

  function Insert(ids: seq<int>, v: int): seq<int> {
    if ids == [] then [v]
    else if v == ids[0] then ids
    else if v < ids[0] then [v] + ids
    else [ids[0]] + Insert(ids[1..], v)
  }

  lemma {:induction false} InsertHolds(ids: seq<int>, v: int, x: int)
    ensures x in Insert(ids, v) <==> x in ids || x == v
  {
    if ids != [] {
      assert ids == [ids[0]] + ids[1..];
      if v > ids[0] { InsertHolds(ids[1..], v, x); }
    }
  }

  lemma {:induction false} InsertSorted(ids: seq<int>, v: int)
    requires Sorted(ids)
    ensures Sorted(Insert(ids, v))
  {
    if ids != [] && v > ids[0] {
      var rest, tail := ids[1..], Insert(ids[1..], v);
      InsertSorted(rest, v);
      forall i | 0 <= i < |tail| ensures ids[0] < tail[i] {
        InsertHolds(rest, v, tail[i]);
        if tail[i] != v {
          var j :| 0 <= j < |rest| && rest[j] == tail[i];
          assert ids[j + 1] == rest[j];
        }
      }
    }
  }

  /** What `user_slices_and_deltas_to_vms` leaves for a user with these slices. */
  ghost predicate VmsBilled(vms: Hash<VmUse>, slices: seq<Slice>, w: Slice -> int) {
    && ValidHash(vms) && Sorted(vms.keys)
    && (forall v :: v in vms.keys <==> OfVm(slices, v) != [])
    && forall v :: v in vms.keys ==> vms.at[v] == VmUse(OfVm(slices, v), Sum(OfVm(slices, v), w))
  }

  /** What `account` returns for the slices that the query found. */
  ghost predicate Billed(users: Hash<Hash<VmUse>>, query: seq<Slice>, w: Slice -> int) {
    && ValidHash(users)
    && (forall u :: u in users.keys <==> OfUser(query, u) != [])
    && forall u :: u in users.keys ==> VmsBilled(users.at[u], OfUser(query, u), w)
  }

  /** The slices that the query of `get_vm_slices` selects. */
  function Query(register: seq<Slice>, f: Filters): seq<Slice> {
    Select(register, (s: Slice) => Selected(f, s))
  }

  /** The time of each selected slice. */
  function Clip(f: Filters, now: nat): Slice -> int {
    (s: Slice) => Time(s, ToI(f.start), PeriodEnd(f, now))
  }

  /** The account of the whole register under these filters. */
  ghost predicate BillFor(users: Hash<Hash<VmUse>>, register: seq<Slice>, f: Filters, now: nat) {
    Billed(users, Query(register, f), Clip(f, now))
  }

  /** The accounting client; `users` starts empty and holds the account afterwards. */
  class AcctClient {
    var filters: Filters
    var users: Hash<Hash<VmUse>>

    constructor (filters: Filters)
      ensures this.filters == filters && users == Hash([], map[])
    {
      this.filters := filters;
      users := Hash([], map[]);
    }

    /** `account`: the filters given here replace those of the client. */
    method Account(start: Option<nat>, end: Option<nat>, user: Option<int>, register: seq<Slice>, now: nat)
      modifies this
      ensures filters.start == if start == None then old(filters.start) else start
      ensures filters.end == if end == None then old(filters.end) else end
      ensures filters.user == if user == None then old(filters.user) else user
      ensures BillFor(users, register, filters, now)
    {
      var f := filters;
      if start.Some? {
        f := f.(start := start);
      }
      if end.Some? {
        f := f.(end := end);
      }
      if user.Some? {
        f := f.(user := user);
      }
      filters := f;
      var query := GetVmSlices(register, f);
      var listed := SlicesByUser(query);
      users := UserSlicesToVms(listed, query, f, now);
    }
  }

  /** `user_slices_and_deltas_to_vms`; `query` is what `listed` groups. */
  method UserSlicesToVms(listed: Hash<seq<Slice>>, ghost query: seq<Slice>, f: Filters, now: nat)
    returns (users: Hash<Hash<VmUse>>)
    requires Grouped(listed, query)
    ensures Billed(users, query, Clip(f, now))
  {
    hide OfUser, VmsBilled, Clip;
    users := Hash([], map[]);
    for i := 0 to |listed.keys|
      invariant users.keys == listed.keys[..i] && ValidHash(users)
      invariant forall u :: u in users.keys ==> VmsBilled(users.at[u], OfUser(query, u), Clip(f, now))
    {
      var user := listed.keys[i];
      assert listed.at[user] == OfUser(query, user);
      var vms := VmsOfUser(listed.at[user], f, now);
      assert listed.keys[..i + 1] == listed.keys[..i] + [user] && user !in listed.keys[..i];
      users := Hash(users.keys + [user], users.at[user := vms]);
    }
    assert listed.keys[..|listed.keys|] == listed.keys;
  }

  method GetVmSlices(register: seq<Slice>, f: Filters) returns (query: seq<Slice>)
    ensures query == Query(register, f)
  {
    query := [];
    for i := 0 to |register|
      invariant query == Query(register[..i], f)
    {
      assert register[..i + 1][..i] == register[..i];
      if Selected(f, register[i]) {
        query := query + [register[i]];
      }
    }
    assert register[..|register|] == register;
  }

  method VmsOfUser(slices: seq<Slice>, f: Filters, now: nat) returns (vms: Hash<VmUse>)
    ensures VmsBilled(vms, slices, Clip(f, now))
  {
    ghost var w := Clip(f, now);
    var ids := SortUniq(slices);
    vms := Hash([], map[]);
    for i := 0 to |ids|
      invariant vms.keys == ids[..i] && ValidHash(vms)
      invariant forall v :: v in vms.keys ==> vms.at[v] == VmUse(OfVm(slices, v), Sum(OfVm(slices, v), w))
    {
      var vm := ids[i];
      var own := OfVm(slices, vm);
      var used := VmUse([], 0);
      for j := 0 to |own|
        invariant used == VmUse(own[..j], Sum(own[..j], w))
      {
        assert own[..j + 1][..j] == own[..j];
        var time := CalculateTime(own[j], f, now);
        used := VmUse(used.slices + [own[j]], used.time + time);
      }
      assert own[..|own|] == own;
      assert ids[..i + 1] == ids[..i] + [vm] && vm !in ids[..i];
      vms := Hash(vms.keys + [vm], vms.at[vm := used]);
    }
    assert ids[..|ids|] == ids;
    forall v ensures v in ids <==> OfVm(slices, v) != [] {
      VmOccurs(slices, v);
    }
  }

  lemma VmOccurs(ss: seq<Slice>, v: int)
    ensures OfVm(ss, v) != [] <==> exists i :: 0 <= i < |ss| && ss[i].vmId == v
  {
    var p := (s: Slice) => s.vmId == v;
    if i :| 0 <= i < |ss| && ss[i].vmId == v {
      SelectKeeps(ss, p, ss[i]);
      assert |OfVm(ss, v)| > 0;
    } else {
      NoneSelected(ss, p);
    }
  }

  // ---------------------------------------------------------------------------
  // What the bill says
  // ---------------------------------------------------------------------------

  /** The time billed to a user for a machine; 0 if the account does not list it. */
  function TimeIn(users: Hash<Hash<VmUse>>, u: int, v: int): int {
    if u in users.at && v in users.at[u].at then users.at[u].at[v].time else 0
  }

  function TotalTime(users: Hash<Hash<VmUse>>): int {
    SumOver(users.keys, (u: int) => if u in users.at then UserTime(users.at[u]) else 0)
  }

  function UserTime(vms: Hash<VmUse>): int {
    SumOver(vms.keys, (v: int) => if v in vms.at then vms.at[v].time else 0)
  }

  lemma {:induction false} SumOverAgrees(keys: seq<int>, g: int -> int, h: int -> int)
    requires forall k :: k in keys ==> g(k) == h(k)
    ensures SumOver(keys, g) == SumOver(keys, h)
  {
    if keys != [] {
      var last := keys[|keys| - 1];
      assert last in keys && g(last) == h(last);
      SumOverAgrees(keys[..|keys| - 1], g, h);
    }
  }

  lemma {:induction false} SumAgrees(ss: seq<Slice>, g: Slice -> int, h: Slice -> int)
    requires forall s :: s in ss ==> g(s) == h(s)
    ensures Sum(ss, g) == Sum(ss, h)
  {
    if ss != [] {
      SumAgrees(ss[..|ss| - 1], g, h);
    }
  }

  lemma {:induction false} NoneSelected(ss: seq<Slice>, p: Slice -> bool)
    requires forall s :: s in ss ==> !p(s)
    ensures Select(ss, p) == []
  {
    if ss != [] {
      NoneSelected(ss[..|ss| - 1], p);
    }
  }

  lemma UserTimeIsSum(vms: Hash<VmUse>, slices: seq<Slice>, w: Slice -> int)
    requires VmsBilled(vms, slices, w)
    ensures UserTime(vms) == Sum(slices, w)
  {
    var key := (s: Slice) => s.vmId;
    var g := (v: int) => Sum(Select(slices, (s: Slice) => key(s) == v), w);
    forall s | s in slices ensures key(s) in vms.keys {
      SelectKeeps(slices, (x: Slice) => x.vmId == s.vmId, s);
      assert |OfVm(slices, s.vmId)| > 0;
    }
    PartsAddUp(slices, key, vms.keys, w);
    forall v | v in vms.keys
      ensures (if v in vms.at then vms.at[v].time else 0) == g(v)
    {
      SelectAgrees(slices, (s: Slice) => s.vmId == v, (s: Slice) => key(s) == v);
    }
    SumOverAgrees(vms.keys, (v: int) => if v in vms.at then vms.at[v].time else 0, g);
  }

  lemma {:induction false} SelectAgrees(ss: seq<Slice>, p: Slice -> bool, q: Slice -> bool)
    requires forall s :: p(s) == q(s)
    ensures Select(ss, p) == Select(ss, q)
  {
    if ss != [] {
      SelectAgrees(ss[..|ss| - 1], p, q);
    }
  }

  /** Nothing is lost or counted twice: the whole bill is the charge of the whole register. */
  lemma TotalIsConserved(users: Hash<Hash<VmUse>>, register: seq<Slice>, f: Filters, now: nat)
    requires BillFor(users, register, f, now)
    ensures TotalTime(users) == Sum(register, (s: Slice) => Charge(f, s, now))
  {
    var w := Clip(f, now);
    var p := (s: Slice) => Selected(f, s);
    var query := Select(register, p);
    var key := (s: Slice) => s.uid;
    var g := (u: int) => Sum(Select(query, (s: Slice) => key(s) == u), w);
    forall s | s in query ensures key(s) in users.keys {
      SelectKeeps(query, (x: Slice) => x.uid == s.uid, s);
      assert |OfUser(query, s.uid)| > 0;
    }
    PartsAddUp(query, key, users.keys, w);
    forall u | u in users.keys
      ensures (if u in users.at then UserTime(users.at[u]) else 0) == g(u)
    {
      UserTimeIsSum(users.at[u], OfUser(query, u), w);
      SelectAgrees(query, (s: Slice) => s.uid == u, (s: Slice) => key(s) == u);
    }
    SumOverAgrees(users.keys, (u: int) => if u in users.at then UserTime(users.at[u]) else 0, g);
    SumOfSelect(register, p, w);
    SumAgrees(register, (s: Slice) => if p(s) then w(s) else 0, (s: Slice) => Charge(f, s, now));
  }

  /** What a user is billed for a machine is the charge of their slices of it, in the whole register. */
  lemma BilledTime(users: Hash<Hash<VmUse>>, register: seq<Slice>, f: Filters, now: nat, u: int, v: int)
    requires BillFor(users, register, f, now)
    ensures TimeIn(users, u, v)
         == Sum(register, (s: Slice) => if s.uid == u && s.vmId == v then Charge(f, s, now) else 0)
  {
    var w := Clip(f, now);
    var p := (s: Slice) => Selected(f, s);
    var ofUser, ofVm := (s: Slice) => s.uid == u, (s: Slice) => s.vmId == v;
    var query := Select(register, p);
    var slices := Select(query, ofUser);
    if u in users.keys {
      assert VmsBilled(users.at[u], OfUser(query, u), w);
    }
    assert TimeIn(users, u, v) == Sum(Select(slices, ofVm), w);
    var w1 := (s: Slice) => if ofVm(s) then w(s) else 0;
    SumOfSelect(slices, ofVm, w);
    var w2 := (s: Slice) => if ofUser(s) then w1(s) else 0;
    SumOfSelect(query, ofUser, w1);
    SumOfSelect(register, p, w2);
    SumAgrees(register, (s: Slice) => if p(s) then w2(s) else 0,
              (s: Slice) => if s.uid == u && s.vmId == v then Charge(f, s, now) else 0);
  }

  /** The account of one user has nothing of any other. */
  lemma OthersAbsent(users: Hash<Hash<VmUse>>, register: seq<Slice>, f: Filters, now: nat, u: int, v: int)
    requires BillFor(users, register, f, now)
    requires f.user.Some? && u != f.user.value
    ensures u !in users.keys && TimeIn(users, u, v) == 0
  {
    var query := Query(register, f);
    forall s | s in query ensures s.uid != u {
      SelectKeeps(register, (x: Slice) => Selected(f, x), s);
    }
    NoneSelected(query, (s: Slice) => s.uid == u);
  }

  predicate IsListed(users: Hash<Hash<VmUse>>, u: int, v: int, s: Slice) {
    u in users.at && v in users.at[u].at && s in users.at[u].at[v].slices
  }

  /**
   A slice is listed under its own user and machine and nowhere else, exactly if it is in the
   register, of the given user, not over by the given start, and begun by the given end.
   */
  lemma ListedExactly(users: Hash<Hash<VmUse>>, register: seq<Slice>, f: Filters, now: nat, u: int, v: int, s: Slice)
    requires BillFor(users, register, f, now)
    ensures IsListed(users, u, v, s) <==>
            && s in register && s.uid == u && s.vmId == v
            && (f.user == None || u == f.user.value)
            && (f.start == None || s.retime == 0 || f.start.value < s.retime)
            && (f.end == None || s.rstime <= f.end.value)
  {
    var query, slices := Query(register, f), OfUser(Query(register, f), u);
    SelectKeeps(register, (x: Slice) => Selected(f, x), s);
    SelectKeeps(query, (x: Slice) => x.uid == u, s);
    SelectKeeps(slices, (x: Slice) => x.vmId == v, s);
    if s in OfVm(slices, v) {
      assert |OfVm(slices, v)| > 0 && |slices| > 0;
    }
    if u in users.keys {
      assert VmsBilled(users.at[u], slices, Clip(f, now));
    }
  }

  /** The query and the clock may lose time or count below zero, but never charge too much. */
  lemma ChargeAtMost(f: Filters, s: Slice, now: nat)
    requires Proper(s)
    ensures Charge(f, s, now) <= |Due(f, s, now)|
  {
    if ToI(f.start) <= PeriodEnd(f, now) {
      OverlapSize(s, ToI(f.start), PeriodEnd(f, now));
    }
  }

  /** A sum of parts that are at most others is equal to their sum only if every part is. */
  lemma {:induction false} SumAtMost(ss: seq<Slice>, a: Slice -> int, b: Slice -> int)
    requires forall s :: s in ss ==> a(s) <= b(s)
    ensures Sum(ss, a) <= Sum(ss, b)
    ensures Sum(ss, a) == Sum(ss, b) <==> forall s :: s in ss ==> a(s) == b(s)
  {
    if ss != [] {
      var init, last := ss[..|ss| - 1], ss[|ss| - 1];
      SumAtMost(init, a, b);
      assert last in ss && forall s :: s in ss <==> s in init || s == last;
    }
  }

  /**
   A user is billed for a machine exactly the seconds in which it ran in the period, if and only if
   each of their slices of it is sound; other users' slices do not matter.
   */
  lemma BillIsOverlap(users: Hash<Hash<VmUse>>, register: seq<Slice>, f: Filters, now: nat, u: int, v: int)
    requires BillFor(users, register, f, now)
    requires forall s :: s in register && s.uid == u && s.vmId == v ==> Proper(s)
    ensures TimeIn(users, u, v) == Sum(register, (s: Slice) => Ran(s, f, now, u, v)) <==>
            forall s :: s in register && s.uid == u && s.vmId == v ==> Sound(f, s, now)
  {
    BilledTime(users, register, f, now, u, v);
    var billed := (s: Slice) => if s.uid == u && s.vmId == v then Charge(f, s, now) else 0;
    var ran := (s: Slice) => Ran(s, f, now, u, v);
    forall s | s in register
      ensures billed(s) <= ran(s)
      ensures billed(s) == ran(s) <==> (s.uid == u && s.vmId == v ==> Sound(f, s, now))
    {
      if s.uid == u && s.vmId == v {
        ChargeAtMost(f, s, now);
        ChargeIsOverlap(f, s, now);
      }
    }
    SumAtMost(register, billed, ran);
  }

  /** The seconds due of a slice, if it belongs to this user and machine. */
  ghost function Ran(s: Slice, f: Filters, now: nat, u: int, v: int): int {
    if s.uid == u && s.vmId == v then |Due(f, s, now)| else 0
  }

  lemma {:induction false} SumOfSums(ss: seq<Slice>, w: Slice -> int, a: Slice -> int, b: Slice -> int)
    requires forall s :: s in ss ==> w(s) == a(s) + b(s)
    ensures Sum(ss, w) == Sum(ss, a) + Sum(ss, b)
  {
    if ss != [] {
      SumOfSums(ss[..|ss| - 1], w, a, b);
    }
  }

  /** Billing two adjacent periods bills every user for every machine what one bill over both does. */
  lemma BillsAdd(whole: Hash<Hash<VmUse>>, first: Hash<Hash<VmUse>>, second: Hash<Hash<VmUse>>,
                 register: seq<Slice>, start: nat, mid: nat, end: nat, user: Option<int>, now: nat,
                 u: int, v: int)
    requires start <= mid <= end && 0 < mid
    requires forall s :: s in register ==> Proper(s)
    requires BillFor(whole, register, Period(start, end, user), now)
    requires BillFor(first, register, Period(start, mid, user), now)
    requires BillFor(second, register, Period(mid, end, user), now)
    ensures TimeIn(whole, u, v) == TimeIn(first, u, v) + TimeIn(second, u, v)
  {
    BilledTime(whole, register, Period(start, end, user), now, u, v);
    BilledTime(first, register, Period(start, mid, user), now, u, v);
    BilledTime(second, register, Period(mid, end, user), now, u, v);
    SumOfSums(register,
              (s: Slice) => if s.uid == u && s.vmId == v then Charge(Period(start, end, user), s, now) else 0,
              (s: Slice) => if s.uid == u && s.vmId == v then Charge(Period(start, mid, user), s, now) else 0,
              (s: Slice) => if s.uid == u && s.vmId == v then Charge(Period(mid, end, user), s, now) else 0);
  }
}
