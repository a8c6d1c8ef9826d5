/**
 * The inter-process messages of xautolock (src/message.c). A running
 * xautolock advertises itself through a "semaphore" property on the root
 * window of screen 0 holding its process id; another invocation finds it
 * there and either refuses to start or leaves a message in the "message"
 * property, which the running one reads and deletes on every pass.
 *
 * The X server is abstracted to the property map of that root window, an
 * atom to the (upper-cased) name it was interned under, and kill(pid, 0) to
 * membership of `pid` in the set of processes the caller may signal.
 * exit() and execv() are returned as outcomes instead of being performed.
 */
module Messages {
  import opened Wrappers
  import opened State
  import opened Options

  /** The suffixes that turn the program name into the two property names. */
  const SemaphoreSuffix := "_SEMAPHORE_PID"
  const MessageSuffix := "_MESSAGE"

  /** toupper() in the C locale. */
  function ToUpper(c: char): (u: char)
    ensures !('a' <= u <= 'z')
    ensures 'a' <= c <= 'z' ==> u as int == c as int - 32
    ensures !('a' <= c <= 'z') ==> u == c
  {
    if 'a' <= c <= 'z' then (c as int - 32) as char else c
  }

  /** A string with every lower-case letter made upper-case. */
  function Upper(s: string): (r: string)
    ensures |r| == |s|
  {
    seq(|s|, k requires 0 <= k < |s| => ToUpper(s[k]))
  }

  /** Upper-casing is idempotent. */
  lemma UpperIdempotent(s: string)
    ensures Upper(Upper(s)) == Upper(s)
  {
  }

  /** Upper-casing works character by character, so it distributes over concatenation. */
  lemma UpperOfConcat(s: string, t: string)
    ensures Upper(s + t) == Upper(s) + Upper(t)
  {
    assert forall k :: 0 <= k < |s + t| ==> Upper(s + t)[k] == (Upper(s) + Upper(t))[k];
  }

  /**
   * The name of an atom: the program name followed by `suffix`, all in
   * upper case, built in a fresh buffer and upper-cased in place.
   */
  method AtomName(progName: string, suffix: string) returns (name: string)
    ensures name == Upper(progName + suffix)
  {
    var whole := progName + suffix;
    var buffer := new char[|whole|];
    var i := 0;
    while i < buffer.Length
      invariant 0 <= i <= buffer.Length
      invariant forall k :: 0 <= k < i ==> buffer[k] == whole[k]
    {
      buffer[i] := whole[i];
      i := i + 1;
    }
    i := 0;
    while i < buffer.Length
      invariant 0 <= i <= buffer.Length
      invariant forall k :: 0 <= k < i ==> buffer[k] == ToUpper(whole[k])
      invariant forall k :: i <= k < buffer.Length ==> buffer[k] == whole[k]
    {
      buffer[i] := ToUpper(buffer[i]);
      i := i + 1;
    }
    name := buffer[..];
  }

  /** The semaphore and the mailbox of one program name are always two different properties. */
  lemma AtomsDistinct(progName: string)
    ensures Upper(progName + SemaphoreSuffix) != Upper(progName + MessageSuffix)
  {
  }

  /**
   * Two invocation names that differ only in the case of their letters
   * share a semaphore, so they see each other.
   */
  lemma {:induction false} AtomsIgnoreCase(p: string, q: string)
    requires Upper(p) == Upper(q)
    ensures Upper(p + SemaphoreSuffix) == Upper(q + SemaphoreSuffix)
    ensures Upper(p + MessageSuffix) == Upper(q + MessageSuffix)
  {
    UpperOfConcat(p, SemaphoreSuffix);
    UpperOfConcat(q, SemaphoreSuffix);
    UpperOfConcat(p, MessageSuffix);
    UpperOfConcat(q, MessageSuffix);
  }

  /** The value of a root-window property, as far as xautolock looks at it. */
  datatype Property = IntegerProperty(value: int) | OtherProperty

  /** The root window of screen 0 and its properties, keyed by atom name. */
  class RootWindow {
    var properties: map<string, Property>

    constructor (properties: map<string, Property>)
      ensures this.properties == properties
    {
      this.properties := properties;
    }
  }

  /** The property under `atom`, as XGetWindowProperty reports it. */
  function PropertyOf(properties: map<string, Property>, atom: string): Option<Property> {
    if atom in properties then Some(properties[atom]) else None
  }

  /** Whether the semaphore names a process that kill(pid, 0) reaches. */
  predicate LiveOwner(semaphore: Option<Property>, signalable: set<int>) {
    semaphore.Some? && semaphore.value.IntegerProperty? && semaphore.value.value in signalable
  }

  /** How checkConnectionAndSendMessage ends. */
  datatype Startup =
    | Claimed          // no live xautolock: this one takes over the semaphore and runs
    | Sent             // the message was left for the running xautolock: exit(EXIT_SUCCESS)
    | NoSuchProcess    // a message for a dead or foreign owner: exit(EXIT_FAILURE)
    | AlreadyRunning   // no message, but a live owner: exit(EXIT_FAILURE)
    | NotLocated       // a message, but no semaphore at all: exit(EXIT_FAILURE)

  /** The exit status of an invocation that does not go on running. */
  function StartupExit(s: Startup): (code: Option<int>)
    ensures code.None? <==> s == Claimed
    ensures code == Some(ExitSuccess) <==> s == Sent
    ensures s != Claimed && s != Sent ==> code == Some(ExitFailure)
  {
    match s
    case Claimed => None
    case Sent => Some(ExitSuccess)
    case _ => Some(ExitFailure)
  }

  /**
   * The decision table of checkConnectionAndSendMessage, by what the caller
   * wants and what it finds: without a message, an invocation runs exactly
   * when there is no live owner; with one, it delivers exactly when there is.
   */
  function Negotiate(semaphore: Option<Property>, signalable: set<int>, msg: Message): (r: Startup)
    ensures r == Claimed <==> msg == NoMessage && !LiveOwner(semaphore, signalable)
    ensures r == Sent <==> msg != NoMessage && LiveOwner(semaphore, signalable)
    ensures r == AlreadyRunning <==> msg == NoMessage && LiveOwner(semaphore, signalable)
    ensures r == NoSuchProcess <==>
      msg != NoMessage && semaphore.Some? && semaphore.value.IntegerProperty? && !LiveOwner(semaphore, signalable)
    ensures r == NotLocated <==>
      msg != NoMessage && !(semaphore.Some? && semaphore.value.IntegerProperty?)
  {
    var found := semaphore.Some? && semaphore.value.IntegerProperty?;
    if msg == NoMessage then
      (if LiveOwner(semaphore, signalable) then AlreadyRunning else Claimed)
    else if LiveOwner(semaphore, signalable) then Sent
    else if found then NoSuchProcess
    else NotLocated
  }

  /** The root-window properties after checkConnectionAndSendMessage. */
  function AfterNegotiation(properties: map<string, Property>, semaphoreAtom: string, messageAtom: string,
                            outcome: Startup, msg: Message, pid: int): (r: map<string, Property>)
    ensures outcome == Claimed ==> r == properties[semaphoreAtom := IntegerProperty(pid)]
    ensures outcome == Sent ==> r == properties[messageAtom := IntegerProperty(Code(msg))]
    ensures outcome != Claimed && outcome != Sent ==> r == properties
  {
    match outcome
    case Claimed => properties[semaphoreAtom := IntegerProperty(pid)]
    case Sent => properties[messageAtom := IntegerProperty(Code(msg))]
    case _ => properties
  }

  /** What a pass of lookForMessages leaves the main loop to do. */
  datatype Effect =
    | Continue
    | ExitProgram(code: int)               // exit(0) on an exit message
    | Exec(argv: seq<Option<string>>)      // execv(argArray[0], argArray) on a restart message

  /**
   * The message lookForMessages acts upon, given what the mailbox held:
   * none on the very first pass, none unless the property is an integer,
   * and none for a code outside the enumeration or for msg_none.
   */
  function Received(mailbox: Option<Property>, first: bool): (r: Option<Message>)
    ensures first ==> r.None?
    ensures r.Some? ==> r.value != NoMessage && mailbox == Some(IntegerProperty(Code(r.value)))
  {
    if first then None
    else match mailbox
      case Some(IntegerProperty(c)) =>
        (match Decode(c)
         case Some(m) => if m == NoMessage then None else (CodeDecode(m, c); Some(m))
         case None => None)
      case _ => None
  }

  /** A message left by Negotiate is the message the running xautolock acts upon. */
  lemma DeliveredMessageReceived(m: Message)
    requires m != NoMessage
    ensures Received(Some(IntegerProperty(Code(m))), false) == Some(m)
  {
    CodeDecode(m, Code(m));
  }

  /**
   * The effect of a message handler on the control state: -secure
   * ignores every message; disable moves the lock trigger to a full lock
   * time ahead and disarms the kill trigger, even when already disabled;
   * enable resets the triggers, even when already enabled; toggle flips
   * between the two; locknow and unlocknow only register while enabled.
   * Exit and restart leave the control state alone.
   */
  function Handle(c: Control, m: Message, secure: bool, now: int, lockTime: int, killTime: int): (r: Control)
    ensures r.disabled != c.disabled ==> !secure && (m == Disable || m == Enable || m == Toggle)
    ensures r.lockNow != c.lockNow ==> !secure && !c.disabled && m == LockNow && r.lockNow
    ensures r.unlockNow != c.unlockNow ==> !secure && !c.disabled && m == UnlockNow && r.unlockNow
    ensures r.disabled && r.disabled != c.disabled ==> r.triggers == Triggers(now + lockTime, 0)
    ensures !r.disabled && r.disabled != c.disabled ==> r.triggers == Reset(c.triggers, now, lockTime, killTime)
    ensures secure ==> r == c
    ensures !secure && (m == Disable || (m == Toggle && !c.disabled)) ==>
      r == c.(disabled := true, triggers := Triggers(now + lockTime, 0))
    ensures !secure && (m == Enable || (m == Toggle && c.disabled)) ==>
      r == c.(disabled := false, triggers := Reset(c.triggers, now, lockTime, killTime))
    ensures !secure && !c.disabled && m == LockNow ==> r == c.(lockNow := true)
    ensures !secure && !c.disabled && m == UnlockNow ==> r == c.(unlockNow := true)
    ensures c.disabled && (m == LockNow || m == UnlockNow) ==> r == c
    ensures m == NoMessage || m == Exit || m == Restart ==> r == c
  {
    if secure then c
    else match m
      case Disable => c.(disabled := true, triggers := Triggers(now + lockTime, 0))
      case Enable => c.(disabled := false, triggers := Reset(c.triggers, now, lockTime, killTime))
      case Toggle =>
        if c.disabled then c.(disabled := false, triggers := Reset(c.triggers, now, lockTime, killTime))
        else c.(disabled := true, triggers := Triggers(now + lockTime, 0))
      case LockNow => if c.disabled then c else c.(lockNow := true)
      case UnlockNow => if c.disabled then c else c.(unlockNow := true)
      case _ => c
  }

  /** With -secure, no message changes anything. */
  lemma SecureIgnoresMessages(c: Control, m: Message, now: int, lockTime: int, killTime: int)
    ensures Handle(c, m, true, now, lockTime, killTime) == c
  {
  }

  /** Toggling is disabling an enabled xautolock and enabling a disabled one. */
  lemma ToggleIsDisableOrEnable(c: Control, secure: bool, now: int, lockTime: int, killTime: int)
    ensures Handle(c, Toggle, secure, now, lockTime, killTime)
         == Handle(c, if c.disabled then Enable else Disable, secure, now, lockTime, killTime)
  {
  }

  /** Two toggles at the same instant restore the disabled flag. */
  lemma ToggleTwice(c: Control, now: int, lockTime: int, killTime: int)
    ensures var once := Handle(c, Toggle, false, now, lockTime, killTime);
      Handle(once, Toggle, false, now, lockTime, killTime).disabled == c.disabled
  {
  }

  /** Disabling twice is disabling once. */
  lemma DisableIdempotent(c: Control, secure: bool, now: int, lockTime: int, killTime: int)
    ensures var once := Handle(c, Disable, secure, now, lockTime, killTime);
      Handle(once, Disable, secure, now, lockTime, killTime) == once
  {
  }

  /**
   * Disabling disarms the kill trigger, and resetTriggers never re-arms a
   * disarmed one: after a disable, a later enable leaves the killer off.
   */
  lemma EnableAfterDisableKeepsKillerOff(c: Control, now: int, later: int, lockTime: int, killTime: int)
    ensures var off := Handle(c, Disable, false, now, lockTime, killTime);
      var on := Handle(off, Enable, false, later, lockTime, killTime);
      !on.disabled && on.triggers == Triggers(later + lockTime, 0)
  {
  }

  /** While disabled, locknow and unlocknow have no effect. */
  lemma DisabledIgnoresLockRequests(c: Control, secure: bool, now: int, lockTime: int, killTime: int)
    requires c.disabled
    ensures Handle(c, LockNow, secure, now, lockTime, killTime) == c
    ensures Handle(c, UnlockNow, secure, now, lockTime, killTime) == c
  {
  }

  /** disableByMessage: the lock trigger first, then the kill trigger, then the flag. */
  method DisableByMessage(st: ProgramState, secure: bool, now: int, lockTime: int, killTime: int)
    modifies st`lockTrigger, st`killTrigger, st`disabled
    ensures st.Snapshot() == Handle(old(st.Snapshot()), Disable, secure, now, lockTime, killTime)
  {
    if !secure {
      st.SetLockTrigger(now, lockTime);
      st.DisableKillTrigger();
      st.disabled := true;
    }
  }

  /** enableByMessage */
  method EnableByMessage(st: ProgramState, secure: bool, now: int, lockTime: int, killTime: int)
    modifies st`lockTrigger, st`killTrigger, st`disabled
    ensures st.Snapshot() == Handle(old(st.Snapshot()), Enable, secure, now, lockTime, killTime)
  {
    if !secure {
      st.ResetTriggers(now, lockTime, killTime);
      st.disabled := false;
    }
  }

  /** toggleByMessage: flips the flag, then acts on its new value. */
  method ToggleByMessage(st: ProgramState, secure: bool, now: int, lockTime: int, killTime: int)
    modifies st`lockTrigger, st`killTrigger, st`disabled
    ensures st.Snapshot() == Handle(old(st.Snapshot()), Toggle, secure, now, lockTime, killTime)
  {
    if !secure {
      st.disabled := !st.disabled;
      if st.disabled {
        st.SetLockTrigger(now, lockTime);
        st.DisableKillTrigger();
      } else {
        st.ResetTriggers(now, lockTime, killTime);
      }
    }
  }

  /** lockNowByMessage */
  method LockNowByMessage(st: ProgramState, secure: bool)
    modifies st`lockNow
    ensures st.lockNow == (old(st.lockNow) || (!secure && !st.disabled))
  {
    if !secure && !st.disabled {
      st.lockNow := true;
    }
  }

  /** unlockNowByMessage */
  method UnlockNowByMessage(st: ProgramState, secure: bool)
    modifies st`unlockNow
    ensures st.unlockNow == (old(st.unlockNow) || (!secure && !st.disabled))
  {
    if !secure && !st.disabled {
      st.unlockNow := true;
    }
  }

  /** The exit and restart handlers: what they leave the main loop to do. */
  function ExitOrRestart(m: Message, secure: bool, argv: seq<Option<string>>): (e: Effect)
    ensures e != Continue <==> !secure && (m == Exit || m == Restart)
    ensures e.ExitProgram? ==> e.code == ExitSuccess
    ensures e.Exec? ==> e.argv == argv
    ensures !secure && m == Exit ==> e == ExitProgram(ExitSuccess)
    ensures !secure && m == Restart ==> e == Exec(argv)
  {
    if secure then Continue
    else if m == Exit then ExitProgram(0)
    else if m == Restart then Exec(argv)
    else Continue
  }

  /** The atoms and the first-call flag that message.c keeps in static variables. */
  class MessageBus {
    var semaphore: string
    var messageAtom: string
    var first: bool

    /** Before getAtoms runs; the first call of lookForMessages is still ahead. */
    constructor ()
      ensures first
    {
      semaphore, messageAtom := [], [];
      first := true;
    }

    /** getAtoms */
    method GetAtoms(progName: string)
      modifies this`semaphore, this`messageAtom
      ensures semaphore == Upper(progName + SemaphoreSuffix)
      ensures messageAtom == Upper(progName + MessageSuffix)
    {
      semaphore := AtomName(progName, SemaphoreSuffix);
      messageAtom := AtomName(progName, MessageSuffix);
    }

    /**
     * checkConnectionAndSendMessage: looks for a live xautolock through the
     * semaphore; sends `msg` to it, or claims the semaphore for `pid`, or
     * gives up, as Negotiate decides.
     */
    method CheckConnectionAndSendMessage(root: RootWindow, progName: string, msg: Message,
                                         signalable: set<int>, pid: int) returns (outcome: Startup)
      modifies this`semaphore, this`messageAtom, root`properties
      ensures semaphore == Upper(progName + SemaphoreSuffix)
      ensures messageAtom == Upper(progName + MessageSuffix)
      ensures outcome == Negotiate(PropertyOf(old(root.properties), semaphore), signalable, msg)
      ensures root.properties
           == AfterNegotiation(old(root.properties), semaphore, messageAtom, outcome, msg, pid)
    {
      GetAtoms(progName);
      var found := PropertyOf(root.properties, semaphore);
      if found.Some? && found.value.IntegerProperty? {
        if found.value.value !in signalable {
          if msg != NoMessage {
            return NoSuchProcess;
          }
        } else if msg != NoMessage {
          root.properties := root.properties[messageAtom := IntegerProperty(Code(msg))];
          return Sent;
        } else {
          return AlreadyRunning;
        }
      } else if msg != NoMessage {
        return NotLocated;
      }
      root.properties := root.properties[semaphore := IntegerProperty(pid)];
      outcome := Claimed;
    }

    /**
     * lookForMessages: empties the mailbox, then, except on the very first
     * pass, dispatches an integer message to its handler.
     */
    method LookForMessages(root: RootWindow, st: ProgramState, secure: bool,
                           now: int, lockTime: int, killTime: int) returns (effect: Effect)
      modifies this`first, root`properties, st`lockTrigger, st`killTrigger, st`disabled,
               st`lockNow, st`unlockNow
      ensures !first
      ensures var m := Received(PropertyOf(old(root.properties), messageAtom), old(first));
        && (m.None? ==> st.Snapshot() == old(st.Snapshot()) && effect == Continue)
        && (m.Some? ==> st.Snapshot() == Handle(old(st.Snapshot()), m.value, secure, now, lockTime, killTime))
        && (m.Some? ==> effect == ExitOrRestart(m.value, secure, old(st.argArray[..])))
      ensures effect.Exec? ==> root.properties == old(root.properties) - {messageAtom, semaphore}
      ensures !effect.Exec? ==> root.properties == old(root.properties) - {messageAtom}
      ensures var m := Received(PropertyOf(old(root.properties), messageAtom), old(first));
        && (!secure && m == Some(Restart) ==>
              effect == Exec(old(st.argArray[..])) && root.properties == old(root.properties) - {messageAtom, semaphore})
        && (!secure && m == Some(Exit) ==>
              effect == ExitProgram(ExitSuccess) && root.properties == old(root.properties) - {messageAtom})
    {
      var mailbox := PropertyOf(root.properties, messageAtom);
      root.properties := root.properties - {messageAtom};
      effect := Continue;
      ghost var m := Received(mailbox, first);
      if first {
        first := false;
      } else if mailbox.Some? && mailbox.value.IntegerProperty? {
        var code := Decode(mailbox.value.value);
        if code == Some(Disable) {
          DisableByMessage(st, secure, now, lockTime, killTime);
        } else if code == Some(Enable) {
          EnableByMessage(st, secure, now, lockTime, killTime);
        } else if code == Some(Toggle) {
          ToggleByMessage(st, secure, now, lockTime, killTime);
        } else if code == Some(LockNow) {
          LockNowByMessage(st, secure);
          assert st.Snapshot() == Handle(old(st.Snapshot()), LockNow, secure, now, lockTime, killTime);
        } else if code == Some(UnlockNow) {
          UnlockNowByMessage(st, secure);
          assert st.Snapshot() == Handle(old(st.Snapshot()), UnlockNow, secure, now, lockTime, killTime);
        } else if code == Some(Restart) {
          if !secure {
            root.properties := root.properties - {semaphore};
            effect := Exec(st.argArray[..]);
          }
        } else if code == Some(Exit) {
          if !secure {
            effect := ExitProgram(0);
          }
        }
      }
    }
  }

  /**
   * Once an xautolock has claimed the semaphore, a later invocation under
   * the same name, while the first is alive, cannot start a second one:
   * it is turned away, or it delivers its message.
   */
  lemma SecondInstanceFindsFirst(properties: map<string, Property>, progName: string,
                                 pid: int, signalable: set<int>, msg: Message)
    requires pid in signalable
    ensures var sem := Upper(progName + SemaphoreSuffix);
      var mes := Upper(progName + MessageSuffix);
      var after := AfterNegotiation(properties, sem, mes, Claimed, NoMessage, pid);
      Negotiate(PropertyOf(after, sem), signalable, msg) == if msg == NoMessage then AlreadyRunning else Sent
  {
  }

  /**
   * A message sent to a running xautolock is acted upon on its next pass
   * (after its first one), whatever else the root window holds.
   */
  lemma SentMessageIsHandled(properties: map<string, Property>, sem: string, mes: string,
                             signalable: set<int>, msg: Message, pid: int)
    requires Negotiate(PropertyOf(properties, sem), signalable, msg) == Sent
    ensures Received(PropertyOf(AfterNegotiation(properties, sem, mes, Sent, msg, pid), mes), false) == Some(msg)
  {
    DeliveredMessageReceived(msg);
  }
}
