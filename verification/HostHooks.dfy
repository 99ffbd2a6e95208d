/**
 Host hooks (src/host/HostHook.cc, src/host/HostPool.cc, include/Hook.h): state hooks compare a
 host with its last recorded state, and one updating hook records it. What one notification
 does is a fold over the hook list; which hooks it fires is then a matter of the history alone.
 */
module HostHooks {
  import opened Wrappers

  datatype HostState = INIT | MONITORING | MONITORED | ERROR | DISABLED

  /** The bits of a hook type, and of the mask of a notification. */
  datatype HookType = ALLOCATE | UPDATE | REMOVE

  datatype Kind = OnCreate | OnState(target: HostState) | Updater

  datatype Hook = Hook(name: string, cmd: string, args: string, remote: bool, kind: Kind) {
    function Type(): set<HookType> {
      if kind.OnCreate? then {ALLOCATE} else {UPDATE, ALLOCATE}
    }
  }

  /** `do_hooks` is called for a host with a mask. */
  datatype Notice = Notice(hid: int, state: HostState, mask: set<HookType>)

  predicate Masked(hook: Hook, n: Notice) {
    hook.Type() * n.mask != {}
  }

  type States = map<int, HostState>

  // ---------------------------------------------------------------------------
  // One notification
  // ---------------------------------------------------------------------------

  /** `do_hook` of one hook: the recorded states it leaves, and whether it runs its command. */
  function DoHook(hook: Hook, states: States, n: Notice): (States, bool) {
    match hook.kind
    case OnCreate => (states, true)
    case OnState(target) => (states, n.hid in states && states[n.hid] != n.state && n.state == target)
    case Updater => (states[n.hid := n.state], false)
  }

  function After(hooks: seq<Hook>, states: States, n: Notice): States {
    if hooks == [] then states
    else
      var last, before := hooks[|hooks| - 1], After(hooks[..|hooks| - 1], states, n);
      if Masked(last, n) then DoHook(last, before, n).0 else before
  }

  /** The positions of the hooks that run their command, in order. */
  function Fired(hooks: seq<Hook>, states: States, n: Notice): seq<int> {
    if hooks == [] then []
    else
      var init, last := hooks[..|hooks| - 1], hooks[|hooks| - 1];
      Fired(init, states, n)
      + if Masked(last, n) && DoHook(last, After(init, states, n), n).1 then [|hooks| - 1] else []
  }

  predicate UpdaterIn(hooks: seq<Hook>) {
    exists i :: 0 <= i < |hooks| && hooks[i].kind == Updater
  }

  /** Does the notification reach the hooks that deal with states? */
  predicate Noticed(n: Notice) {
    n.mask * {UPDATE, ALLOCATE} != {}
  }

  lemma {:induction false} AfterMeaning(hooks: seq<Hook>, states: States, n: Notice)
    ensures After(hooks, states, n) == if UpdaterIn(hooks) && Noticed(n) then states[n.hid := n.state] else states
  {
    if hooks != [] {
      var init, last := hooks[..|hooks| - 1], hooks[|hooks| - 1];
      AfterMeaning(init, states, n);
      assert UpdaterIn(hooks) <==> UpdaterIn(init) || last.kind == Updater by {
        if last.kind == Updater { assert hooks[|hooks| - 1].kind == Updater; }
        if UpdaterIn(init) {
          var i :| 0 <= i < |init| && init[i].kind == Updater;
          assert hooks[i].kind == Updater;
        }
      }
    }
  }

  /** Whether hook number `i` runs, from the states recorded before the notification. */
  ghost predicate Runs(hooks: seq<Hook>, states: States, n: Notice, i: int) {
    && 0 <= i < |hooks|
    && match hooks[i].kind
       case OnCreate => ALLOCATE in n.mask
       case OnState(target) =>
         Noticed(n) && !UpdaterIn(hooks[..i]) && n.hid in states && states[n.hid] != n.state && n.state == target
       case Updater => false
  }

  lemma {:induction false} FiredMeaning(hooks: seq<Hook>, states: States, n: Notice, i: int)
    ensures i in Fired(hooks, states, n) <==> Runs(hooks, states, n, i)
  {
    if hooks != [] {
      var init, last := hooks[..|hooks| - 1], hooks[|hooks| - 1];
      FiredMeaning(init, states, n, i);
      AfterMeaning(init, states, n);
      if 0 <= i < |init| {
        assert init[..i] == hooks[..i];
      }
      assert Masked(last, n) <==> if last.kind.OnCreate? then ALLOCATE in n.mask else Noticed(n) by {
        assert last.kind.OnCreate? ==> (ALLOCATE in n.mask <==> ALLOCATE in last.Type() * n.mask);
        assert !last.kind.OnCreate? ==> last.Type() * n.mask == n.mask * {UPDATE, ALLOCATE};
      }
    }
  }

  // ---------------------------------------------------------------------------
  // Histories
  // ---------------------------------------------------------------------------

  /** The states recorded after a history, from none. */
  function Recorded(hooks: seq<Hook>, history: seq<Notice>): States {
    if history == [] then map[]
    else After(hooks, Recorded(hooks, history[..|history| - 1]), history[|history| - 1])
  }

  /** The state in which a host was last noticed. */
  function LastSeen(history: seq<Notice>, hid: int): Option<HostState> {
    if history == [] then None
    else
      var n := history[|history| - 1];
      if n.hid == hid && Noticed(n) then Some(n.state) else LastSeen(history[..|history| - 1], hid)
  }

  lemma {:induction false} RecordedIsLastSeen(hooks: seq<Hook>, history: seq<Notice>, hid: int)
    requires UpdaterIn(hooks)
    ensures var states := Recorded(hooks, history);
            LastSeen(history, hid) == if hid in states then Some(states[hid]) else None
  {
    if history != [] {
      RecordedIsLastSeen(hooks, history[..|history| - 1], hid);
      AfterMeaning(hooks, Recorded(hooks, history[..|history| - 1]), history[|history| - 1]);
    }
  }

  /** The host was seen before, in another state, and is now in the target state. */
  predicate Entered(history: seq<Notice>, n: Notice, target: HostState) {
    Noticed(n) && LastSeen(history, n.hid).Some? && LastSeen(history, n.hid).value != n.state && n.state == target
  }

  /**
   After any history over any hosts, a state hook runs on a notification exactly when the host
   enters the target state, provided that no updating hook stands before it in the list; one
   that stands behind an updating hook never runs.
   */
  lemma StateHookRuns(hooks: seq<Hook>, history: seq<Notice>, n: Notice, i: int)
    requires UpdaterIn(hooks) && 0 <= i < |hooks| && hooks[i].kind.OnState?
    ensures i in Fired(hooks, Recorded(hooks, history), n) <==>
            Entered(history, n, hooks[i].kind.target) && !UpdaterIn(hooks[..i])
  {
    FiredMeaning(hooks, Recorded(hooks, history), n, i);
    RecordedIsLastSeen(hooks, history, n.hid);
  }

  // ---------------------------------------------------------------------------
  // The list that the pool builds
  // ---------------------------------------------------------------------------

  /** One HOST_HOOK of the configuration; an attribute that is not there reads as "". */
  datatype Conf = Conf(name: string, on: string, cmd: string, arg: string, rmt: string)

  function ToUpper(s: string): (t: string)
    ensures |t| == |s|
  {
    seq(|s|, i requires 0 <= i < |s| => if 'a' <= s[i] <= 'z' then (s[i] as int - 32) as char else s[i])
  }

  /** The body of the constructor's loop: the hook it adds for an entry, if any. */
  function HookFor(c: Conf, hookLocation: string, remotesLocation: string): Option<Hook> {
    var on := ToUpper(c.on);
    if on == "" || c.cmd == "" then None
    else
      var name := if c.name == "" then c.cmd else c.name;
      var remote := ToUpper(c.rmt) == "YES";
      var cmd := if c.cmd[0] == '/' then c.cmd
                 else if remote then hookLocation + "/" + c.cmd
                 else remotesLocation + "/hooks/" + c.cmd;
      if on == "CREATE" then Some(Hook(name, cmd, c.arg, remote, OnCreate))
      else if on == "DISABLE" then Some(Hook(name, cmd, c.arg, remote, OnState(DISABLED)))
      else if on == "ERROR" then Some(Hook(name, cmd, c.arg, remote, OnState(ERROR)))
      else None
  }

  function HooksFor(cs: seq<Conf>, hookLocation: string, remotesLocation: string): seq<Hook> {
    if cs == [] then []
    else
      var rest := HooksFor(cs[..|cs| - 1], hookLocation, remotesLocation);
      match HookFor(cs[|cs| - 1], hookLocation, remotesLocation)
      case None => rest
      case Some(h) => rest + [h]
  }

  predicate StateHookIn(hooks: seq<Hook>) {
    exists i :: 0 <= i < |hooks| && hooks[i].kind.OnState?
  }

  lemma {:induction false} NoUpdaterConfigured(cs: seq<Conf>, hookLocation: string, remotesLocation: string)
    ensures forall i :: 0 <= i < |HooksFor(cs, hookLocation, remotesLocation)| ==>
                          HooksFor(cs, hookLocation, remotesLocation)[i].kind != Updater
  {
    if cs != [] { NoUpdaterConfigured(cs[..|cs| - 1], hookLocation, remotesLocation); }
  }

  const UPDATER := Hook("", "", "", false, Updater)

  /** The list that the constructor builds. */
  function Built(cs: seq<Conf>, hookLocation: string, remotesLocation: string): seq<Hook> {
    var configured := HooksFor(cs, hookLocation, remotesLocation);
    configured + if StateHookIn(configured) then [UPDATER] else []
  }

  // ---------------------------------------------------------------------------
  // What an entry of the configuration does
  // ---------------------------------------------------------------------------

  /** The text is this word of capitals, in capitals or not. */
  predicate Spells(s: string, word: string) {
    |s| == |word| && forall i :: 0 <= i < |s| ==>
      s[i] == word[i] || ('A' <= word[i] <= 'Z' && s[i] as int == word[i] as int + 32)
  }

  predicate Capitals(word: string) {
    forall i :: 0 <= i < |word| ==> 'A' <= word[i] <= 'Z'
  }

  lemma UpperSpells(s: string, word: string)
    requires Capitals(word)
    ensures ToUpper(s) == word <==> Spells(s, word)
  {
    if ToUpper(s) == word {
      forall i | 0 <= i < |s|
        ensures s[i] == word[i] || ('A' <= word[i] <= 'Z' && s[i] as int == word[i] as int + 32)
      {
        assert ToUpper(s)[i] == word[i];
      }
    }
    if Spells(s, word) {
      forall i | 0 <= i < |s| ensures ToUpper(s)[i] == word[i] {}
    }
  }

  /** The entries that become hooks. */
  predicate Usable(c: Conf) {
    c.cmd != "" && (Spells(c.on, "CREATE") || Spells(c.on, "DISABLE") || Spells(c.on, "ERROR"))
  }

  /** The place of the hook of entry `j`: usable entries keep their order. */
  function Place(cs: seq<Conf>, j: int): nat
    requires 0 <= j <= |cs|
    decreases j
  {
    if j == 0 then 0 else Place(cs, j - 1) + if Usable(cs[j - 1]) then 1 else 0
  }

  /** The hook runs the entry's command, by its absolute path or below one of the two locations. */
  predicate RunsCommandOf(h: Hook, c: Conf, hookLocation: string, remotesLocation: string)
    requires c.cmd != ""
  {
    && h.name == (if c.name == "" then c.cmd else c.name)
    && h.args == c.arg
    && (h.remote <==> Spells(c.rmt, "YES"))
    && h.cmd == if c.cmd[0] == '/' then c.cmd
                else if Spells(c.rmt, "YES") then hookLocation + "/" + c.cmd
                else remotesLocation + "/hooks/" + c.cmd
  }

  lemma SpelledOnce(s: string)
    ensures !(Spells(s, "CREATE") && Spells(s, "DISABLE"))
    ensures !(Spells(s, "CREATE") && Spells(s, "ERROR"))
    ensures !(Spells(s, "DISABLE") && Spells(s, "ERROR"))
  {
    assert |"CREATE"| == 6 && |"DISABLE"| == 7 && |"ERROR"| == 5;
  }

  lemma EntryHook(c: Conf, hookLocation: string, remotesLocation: string)
    ensures var h := HookFor(c, hookLocation, remotesLocation);
            && (h.Some? <==> Usable(c))
            && (h.Some? ==>
                  && RunsCommandOf(h.value, c, hookLocation, remotesLocation)
                  && (h.value.kind == OnCreate <==> Spells(c.on, "CREATE"))
                  && (h.value.kind == OnState(DISABLED) <==> Spells(c.on, "DISABLE"))
                  && (h.value.kind == OnState(ERROR) <==> Spells(c.on, "ERROR")))
  {
    UpperSpells(c.on, "CREATE");
    UpperSpells(c.on, "DISABLE");
    UpperSpells(c.on, "ERROR");
    UpperSpells(c.rmt, "YES");
    SpelledOnce(c.on);
    hide Spells, ToUpper;
    assert ToUpper(c.on) == "" ==> ToUpper(c.on) != "CREATE" && ToUpper(c.on) != "DISABLE" && ToUpper(c.on) != "ERROR";
  }

  lemma {:induction false} PlacesFilled(cs: seq<Conf>, hookLocation: string, remotesLocation: string, n: int)
    requires 0 <= n <= |cs|
    ensures |HooksFor(cs[..n], hookLocation, remotesLocation)| == Place(cs, n)
    ensures forall j :: 0 <= j < n && Usable(cs[j]) ==>
              && Place(cs, j) < Place(cs, n)
              && HookFor(cs[j], hookLocation, remotesLocation)
              == Some(HooksFor(cs[..n], hookLocation, remotesLocation)[Place(cs, j)])
    decreases n
  {
    hide HookFor, Usable, HooksFor;
    HooksMore(cs, hookLocation, remotesLocation, n);
    if n > 0 {
      PlacesFilled(cs, hookLocation, remotesLocation, n - 1);
      EntryHook(cs[n - 1], hookLocation, remotesLocation);
      hide RunsCommandOf, Spells;
    }
  }

  lemma HooksMore(cs: seq<Conf>, hookLocation: string, remotesLocation: string, n: int)
    requires 0 <= n <= |cs|
    ensures n == 0 ==> HooksFor(cs[..n], hookLocation, remotesLocation) == []
    ensures n > 0 ==>
              var h := HookFor(cs[n - 1], hookLocation, remotesLocation);
              HooksFor(cs[..n], hookLocation, remotesLocation)
              == HooksFor(cs[..n - 1], hookLocation, remotesLocation) + if h.Some? then [h.value] else []
  {
    hide HookFor;
    if n > 0 {
      assert cs[..n][..n - 1] == cs[..n - 1];
    }
  }

  /** The hook at place `i` is that of entry `j`. */
  predicate IsPlaced(cs: seq<Conf>, j: int, i: int) {
    0 <= j < |cs| && Usable(cs[j]) && Place(cs, j) == i
  }

  lemma {:induction false} EntryAt(cs: seq<Conf>, n: int, i: int) returns (j: int)
    requires 0 <= n <= |cs| && 0 <= i < Place(cs, n)
    ensures IsPlaced(cs, j, i)
    decreases n
  {
    if i < Place(cs, n - 1) {
      j := EntryAt(cs, n - 1, i);
    } else {
      j := n - 1;
    }
  }

  /**
   From the configuration to the commands, in every history: the hook of a usable entry runs the
   entry's command, with ON=CREATE exactly when hosts are allocated, and with ON=DISABLE or ON=ERROR
   exactly when a host is noticed entering that state from another one.
   */
  lemma EntryFires(cs: seq<Conf>, hookLocation: string, remotesLocation: string,
                   history: seq<Notice>, n: Notice, j: int)
    requires 0 <= j < |cs| && Usable(cs[j])
    ensures var hooks := Built(cs, hookLocation, remotesLocation);
            var fires := Place(cs, j) in Fired(hooks, Recorded(hooks, history), n);
            && Place(cs, j) < |hooks|
            && RunsCommandOf(hooks[Place(cs, j)], cs[j], hookLocation, remotesLocation)
            && (Spells(cs[j].on, "CREATE") ==> (fires <==> ALLOCATE in n.mask))
            && (Spells(cs[j].on, "DISABLE") ==> (fires <==> Entered(history, n, DISABLED)))
            && (Spells(cs[j].on, "ERROR") ==> (fires <==> Entered(history, n, ERROR)))
  {
    var configured, hooks := HooksFor(cs, hookLocation, remotesLocation), Built(cs, hookLocation, remotesLocation);
    var i := Place(cs, j);
    assert cs[..|cs|] == cs;
    PlacesFilled(cs, hookLocation, remotesLocation, |cs|);
    EntryHook(cs[j], hookLocation, remotesLocation);
    SpelledOnce(cs[j].on);
    hide HookFor, Usable, Spells, Entered, Fired, Recorded, RunsCommandOf, HooksFor, Place;
    assert hooks[i] == configured[i];
    if hooks[i].kind.OnState? {
      NoUpdaterBefore(cs, hookLocation, remotesLocation, i);
      StateHookRuns(hooks, history, n, i);
    } else {
      FiredMeaning(hooks, Recorded(hooks, history), n, i);
    }
  }

  lemma NoUpdaterBefore(cs: seq<Conf>, hookLocation: string, remotesLocation: string, i: int)
    requires 0 <= i < |HooksFor(cs, hookLocation, remotesLocation)|
    requires HooksFor(cs, hookLocation, remotesLocation)[i].kind.OnState?
    ensures UpdaterIn(Built(cs, hookLocation, remotesLocation))
    ensures !UpdaterIn(Built(cs, hookLocation, remotesLocation)[..i])
  {
    var hooks := Built(cs, hookLocation, remotesLocation);
    NoUpdaterConfigured(cs, hookLocation, remotesLocation);
    assert hooks[|hooks| - 1].kind == Updater;
  }

  /** No other entry does anything: every hook that fires is that of a usable entry. */
  lemma OnlyEntriesFire(cs: seq<Conf>, hookLocation: string, remotesLocation: string,
                        history: seq<Notice>, n: Notice, i: int)
    requires var hooks := Built(cs, hookLocation, remotesLocation); i in Fired(hooks, Recorded(hooks, history), n)
    ensures exists j :: IsPlaced(cs, j, i)
  {
    var configured, hooks := HooksFor(cs, hookLocation, remotesLocation), Built(cs, hookLocation, remotesLocation);
    assert cs[..|cs|] == cs;
    PlacesFilled(cs, hookLocation, remotesLocation, |cs|);
    FiredMeaning(hooks, Recorded(hooks, history), n, i);
    hide Fired, Recorded, HooksFor, Place, Usable;
    assert i < |configured|;
    var j := EntryAt(cs, |cs|, i);
  }

  class HostPool {
    var hooks: seq<Hook>
    var hostStates: States
    ghost var history: seq<Notice>

    ghost predicate Valid()
      reads this
    {
      && hostStates == Recorded(hooks, history)
      && (StateHookIn(hooks) ==> UpdaterIn(hooks))
      && forall i :: 0 <= i < |hooks| - 1 ==> hooks[i].kind != Updater
    }

    /** The configured hooks in their order; behind them, if any of them is a state hook, one updater. */
    constructor (mads: seq<Conf>, hookLocation: string, remotesLocation: string)
      ensures Valid() && history == []
      ensures hooks == Built(mads, hookLocation, remotesLocation)
    {
      hooks, hostStates, history := [], map[], [];
      new;
      var stateHook := false;
      for i := 0 to |mads|
        invariant hooks == HooksFor(mads[..i], hookLocation, remotesLocation)
        invariant stateHook <==> StateHookIn(hooks)
        invariant hostStates == map[] && history == []
      {
        assert mads[..i + 1][..i] == mads[..i];
        var hook := HookFor(mads[i], hookLocation, remotesLocation);
        if hook.Some? {
          assert (hooks + [hook.value])[|hooks|] == hook.value;
          assert forall j :: 0 <= j < |hooks| ==> (hooks + [hook.value])[j] == hooks[j];
          hooks := hooks + [hook.value];
          stateHook := stateHook || hook.value.kind.OnState?;
        }
      }
      assert mads[..|mads|] == mads;
      NoUpdaterConfigured(mads, hookLocation, remotesLocation);
      if stateHook {
        hooks := hooks + [UPDATER];
        assert hooks[|hooks| - 1].kind == Updater;
      }
    }

    /** `do_hooks`: `fired` lists the hooks whose command a loaded driver would be sent. */
    method DoHooks(n: Notice) returns (fired: seq<int>)
      requires Valid()
      modifies this`hostStates, this`history
      ensures Valid() && history == old(history) + [n]
      ensures fired == Fired(hooks, old(hostStates), n)
      ensures forall i :: 0 <= i < |hooks| && hooks[i].kind.OnState? ==>
                            (i in fired <==> Entered(old(history), n, hooks[i].kind.target))
    {
      fired := [];
      ghost var before := hostStates;
      for i := 0 to |hooks|
        invariant hooks == old(hooks) && history == old(history)
        invariant hostStates == After(hooks[..i], before, n)
        invariant fired == Fired(hooks[..i], before, n)
      {
        assert hooks[..i + 1][..i] == hooks[..i];
        if hooks[i].Type() * n.mask != {} {
          var (states, runs) := DoHook(hooks[i], hostStates, n);
          hostStates := states;
          if runs {
            fired := fired + [i];
          }
        }
      }
      assert hooks[..|hooks|] == hooks;
      forall i | 0 <= i < |hooks| && hooks[i].kind.OnState?
        ensures i in fired <==> Entered(history, n, hooks[i].kind.target)
      {
        assert StateHookIn(hooks);
        StateHookRuns(hooks, history, n, i);
      }
      history := history + [n];
      assert history[..|history| - 1] == old(history);
    }
  }
}
