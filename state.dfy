/**
 * The process-wide program state of xautolock (src/state.c, include/state.h):
 * the invocation name, the saved argument vector, the control flags and
 * the two trigger times, together with the trigger macros of state.h.
 * The clock is not read here: every operation that reads time(0) in C
 * takes the current time `now` as a parameter.
 */
module State {
  import opened Wrappers

  /** The lock and kill trigger times; a kill trigger of 0 means "disarmed". */
  datatype Triggers = Triggers(lock: int, kill: int)

  /** The part of the state that the message handlers act upon. */
  datatype Control = Control(disabled: bool, lockNow: bool, unlockNow: bool, triggers: Triggers)

  /** The effect of the resetTriggers() macro on the triggers. */
  function Reset(t: Triggers, now: int, lockTime: int, killTime: int): (r: Triggers)
    ensures r.lock == now + lockTime
    ensures t.kill == 0 ==> r.kill == 0
    ensures t.kill != 0 ==> r.kill == now + killTime
  {
    Triggers(now + lockTime, if t.kill != 0 then now + killTime else 0)
  }

  /** Resetting twice at the same instant is resetting once, for every killTime. */
  lemma ResetIdempotent(t: Triggers, now: int, lockTime: int, killTime: int)
    ensures Reset(Reset(t, now, lockTime, killTime), now, lockTime, killTime)
         == Reset(t, now, lockTime, killTime)
  {
  }

  /** A reset never arms a disarmed kill trigger. */
  lemma ResetKeepsKillDisarmed(t: Triggers, now: int, lockTime: int, killTime: int)
    requires t.kill == 0
    ensures Reset(t, now, lockTime, killTime).kill == 0
  {
  }

  /** The program name: what follows the last '/' of `path` (all of it when there is none). */
  function ProgName(path: string): (r: string)
    ensures '/' !in r
    ensures |r| <= |path| && path[|path| - |r|..] == r
    ensures |r| < |path| ==> path[|path| - |r| - 1] == '/'
    decreases |path|
  {
    if path == [] || path[|path| - 1] == '/' then []
    else ProgName(path[..|path| - 1]) + [path[|path| - 1]]
  }

  /** argv[0] splits into a directory prefix (empty or ending in '/') and the program name. */
  lemma ProgNameSplitsPath(path: string)
    ensures var r := ProgName(path);
      exists prefix :: path == prefix + r && (prefix == [] || prefix[|prefix| - 1] == '/')
  {
    var r := ProgName(path);
    var prefix := path[..|path| - |r|];
    assert path == prefix + r;
  }

  /** Without a '/' the program name is the whole of argv[0]. */
  lemma {:induction false} ProgNameWithoutSlash(path: string)
    requires '/' !in path
    ensures ProgName(path) == path
    decreases |path|
  {
    if path != [] {
      ProgNameWithoutSlash(path[..|path| - 1]);
    }
  }

  /** A path ending in '/' has an empty program name. */
  lemma ProgNameOfDirectory(path: string)
    requires path != [] && path[|path| - 1] == '/'
    ensures ProgName(path) == []
  {
  }

  /** strrchr: the index of the last occurrence of `c` in `s`, if any. */
  method LastIndexOf(s: string, c: char) returns (r: Option<nat>)
    ensures r.None? <==> c !in s
    ensures r.Some? ==> r.value < |s| && s[r.value] == c && c !in s[r.value + 1..]
  {
    r := None;
    var i := 0;
    while i < |s|
      invariant 0 <= i <= |s|
      invariant r.None? ==> c !in s[..i]
      invariant r.Some? ==> r.value < i && s[r.value] == c && c !in s[r.value + 1..i]
    {
      if s[i] == c {
        r := Some(i);
      }
      i := i + 1;
    }
    assert s[..i] == s;
  }

  class ProgramState {
    var progName: string
    var argArray: array<Option<string>>  // a null-terminated copy of argv
    var nofArgs: nat                     // declared beside argArray; initState leaves it 0
    var disabled: bool
    var lockNow: bool
    var unlockNow: bool
    var lockTrigger: int
    var killTrigger: int
    var lockerPid: int                   // process id of the running locker, 0 when none

    ghost function Snapshot(): Control
      reads this
    {
      Control(disabled, lockNow, unlockNow, Triggers(lockTrigger, killTrigger))
    }

    /** The static initial values of the globals, before initState runs. */
    constructor ()
      ensures !disabled && !lockNow && !unlockNow
      ensures lockTrigger == 0 && killTrigger == 0
      ensures progName == [] && argArray.Length == 0 && nofArgs == 0
      ensures lockerPid == 0
    {
      progName := [];
      argArray := new Option<string>[0];
      disabled, lockNow, unlockNow := false, false, false;
      lockTrigger, killTrigger := 0, 0;
      nofArgs, lockerPid := 0, 0;
    }

    /**
     * initState: saves a null-terminated copy of argv and derives the program
     * name from argv[0]. argv is never empty for a process started by a shell,
     * and the C code dereferences argv[0] unconditionally.
     */
    method InitState(argv: seq<string>)
      requires |argv| >= 1
      modifies this`argArray, this`progName
      ensures fresh(argArray)
      ensures argArray.Length == |argv| + 1
      ensures forall i :: 0 <= i < |argv| ==> argArray[i] == Some(argv[i])
      ensures argArray[|argv|] == None
      ensures progName == ProgName(argv[0])
    {
      var a := new Option<string>[|argv| + 1];
      var i := 0;
      while i < |argv|
        invariant 0 <= i <= |argv|
        invariant forall k :: 0 <= k < i ==> a[k] == Some(argv[k])
      {
        a[i] := Some(argv[i]);
        i := i + 1;
      }
      a[i] := None;
      argArray := a;
      var slash := LastIndexOf(argv[0], '/');
      if slash.Some? {
        progName := argv[0][slash.value + 1..];
      } else {
        progName := argv[0];
      }
      ProgNameAfterLastSlash(argv[0], slash);
    }

    /** setLockTrigger(delta) */
    method SetLockTrigger(now: int, delta: int)
      modifies this`lockTrigger
      ensures lockTrigger == now + delta
    {
      lockTrigger := now + delta;
    }

    /** setKillTrigger(delta) */
    method SetKillTrigger(now: int, delta: int)
      modifies this`killTrigger
      ensures killTrigger == now + delta
    {
      killTrigger := now + delta;
    }

    /** disableKillTrigger() */
    method DisableKillTrigger()
      modifies this`killTrigger
      ensures killTrigger == 0
    {
      killTrigger := 0;
    }

    /** resetLockTrigger() */
    method ResetLockTrigger(now: int, lockTime: int)
      modifies this`lockTrigger
      ensures lockTrigger == now + lockTime
    {
      SetLockTrigger(now, lockTime);
    }

    /** resetTriggers(): re-arms the lock trigger, and the kill trigger only when it is armed. */
    method ResetTriggers(now: int, lockTime: int, killTime: int)
      modifies this`lockTrigger, this`killTrigger
      ensures Triggers(lockTrigger, killTrigger)
           == Reset(Triggers(old(lockTrigger), old(killTrigger)), now, lockTime, killTime)
    {
      SetLockTrigger(now, lockTime);
      if killTrigger != 0 {
        SetKillTrigger(now, killTime);
      }
    }
  }

  /** The name strrchr yields is the one ProgName specifies. */
  lemma ProgNameAfterLastSlash(path: string, slash: Option<nat>)
    requires slash.None? <==> '/' !in path
    requires slash.Some? ==> slash.value < |path| && path[slash.value] == '/' && '/' !in path[slash.value + 1..]
    ensures ProgName(path) == if slash.Some? then path[slash.value + 1..] else path
  {
    if slash.None? {
      ProgNameWithoutSlash(path);
    } else {
      ProgNameOfSuffix(path, slash.value);
    }
  }

  lemma {:induction false} ProgNameOfSuffix(path: string, k: nat)
    requires k < |path| && path[k] == '/' && '/' !in path[k + 1..]
    ensures ProgName(path) == path[k + 1..]
    decreases |path|
  {
    if k == |path| - 1 {
    } else {
      var init := path[..|path| - 1];
      assert init[k] == '/';
      assert init[k + 1..] == path[k + 1..|path| - 1];
      ProgNameOfSuffix(init, k);
      assert path[k + 1..] == init[k + 1..] + [path[|path| - 1]];
    }
  }
}
