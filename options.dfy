/**
 * Option actions and consistency checkers of xautolock (src/options.c,
 * include/options.h, include/config.h). The global option variables are
 * the fields of class Settings; the X resource databases are abstracted
 * to three maps from option to value (see ProcessOpts).
 */
module Options {
  import opened Wrappers

  // Default settings and bounds of include/config.h.
  const Secure := false
  const BellPercent := 40
  const MinLockMins := 1
  const LockMins := 10
  const MaxLockMins := 60
  const MinKillMins := 10
  const KillMins := 20
  const MaxKillMins := 120
  const CreationDelay := 30
  const CornerSize := 10
  const CornerDelay := 5
  const Locker := "xlock"
  const Notifier := ""
  const Killer := ""

  const ExitSuccess := 0
  const ExitFailure := 1

  /** What happens when the pointer rests in a screen corner. */
  datatype CornerAction = Ignore | DontLock | ForceLock

  /** The messages one xautolock can send to a running one. */
  datatype Message = NoMessage | Disable | Enable | Toggle | Exit | LockNow | UnlockNow | Restart

  /** The integer code of a message, in the order of the C enumeration. */
  function Code(m: Message): (c: int)
    ensures 0 <= c <= 7 && (c == 0 <==> m == NoMessage)
  {
    match m
    case NoMessage => 0
    case Disable => 1
    case Enable => 2
    case Toggle => 3
    case Exit => 4
    case LockNow => 5
    case UnlockNow => 6
    case Restart => 7
  }

  /** The message a code stands for, if it stands for any. */
  function Decode(c: int): (m: Option<Message>)
    ensures m.Some? <==> 0 <= c <= 7
  {
    if c == 0 then Some(NoMessage)
    else if c == 1 then Some(Disable)
    else if c == 2 then Some(Enable)
    else if c == 3 then Some(Toggle)
    else if c == 4 then Some(Exit)
    else if c == 5 then Some(LockNow)
    else if c == 6 then Some(UnlockNow)
    else if c == 7 then Some(Restart)
    else None
  }

  /** Encoding and decoding are inverse to each other, in both directions. */
  lemma CodeDecode(m: Message, c: int)
    ensures Decode(Code(m)) == Some(m)
    ensures Decode(c) == Some(m) ==> Code(m) == c
  {
  }

  // ---------------------------------------------------------------------
  // getInteger / getPositive: sscanf (arg, "%d%c", in, &c) == 1

  /** isspace() in the C locale. */
  predicate IsSpace(c: char) {
    c == ' ' || 9 <= c as int <= 13
  }

  predicate IsDigit(c: char) {
    '0' <= c <= '9'
  }

  /** The number of leading characters of `s` that satisfy isspace(). */
  function LeadingSpaces(s: string): (n: nat)
    ensures n <= |s|
    ensures forall k :: 0 <= k < n ==> IsSpace(s[k])
    ensures n < |s| ==> !IsSpace(s[n])
  {
    if s == [] || !IsSpace(s[0]) then 0 else 1 + LeadingSpaces(s[1..])
  }

  /** The number of leading decimal digits of `s`. */
  function LeadingDigits(s: string): (n: nat)
    ensures n <= |s|
    ensures forall k :: 0 <= k < n ==> IsDigit(s[k])
    ensures n < |s| ==> !IsDigit(s[n])
  {
    if s == [] || !IsDigit(s[0]) then 0 else 1 + LeadingDigits(s[1..])
  }

  function DigitValue(c: char): nat
    requires IsDigit(c)
  {
    c as int - '0' as int
  }

  /** The value of a string of decimal digits. */
  function DigitsValue(ds: string): nat
    requires forall k :: 0 <= k < |ds| ==> IsDigit(ds[k])
  {
    if ds == [] then 0
    else 10 * DigitsValue(ds[..|ds| - 1]) + DigitValue(ds[|ds| - 1])
  }

  /**
   * A sign and at least one digit at the front of `u`: the value and the
   * number of characters they take, or None when there is no digit.
   */
  function ScanNumber(u: string): (r: Option<(int, nat)>)
    ensures r.Some? ==> 0 < r.value.1 <= |u| && IsDigit(u[r.value.1 - 1])
    ensures r.Some? ==> r.value.1 == |u| || !IsDigit(u[r.value.1])
  {
    var sign := if 0 < |u| && (u[0] == '+' || u[0] == '-') then 1 else 0;
    var d := LeadingDigits(u[sign..]);
    if d == 0 then None
    else
      var magnitude: int := DigitsValue(u[sign..sign + d]);
      var v: int := if sign == 1 && u[0] == '-' then -magnitude else magnitude;
      Some((v, sign + d))
  }

  /**
   * The %d conversion of sscanf: skips white space, then reads a number.
   * Yields the value and the number of characters consumed, or None when
   * there is no number. (Overflow is not modelled.)
   */
  function ScanDecimal(s: string): (r: Option<(int, nat)>)
    ensures r.Some? ==> 0 < r.value.1 <= |s| && IsDigit(s[r.value.1 - 1])
    ensures r.Some? ==> r.value.1 == |s| || !IsDigit(s[r.value.1])
  {
    var i := LeadingSpaces(s);
    match ScanNumber(s[i..])
    case None => None
    case Some((v, n)) => Some((v, i + n))
  }

  /**
   * getInteger: "%d%c" yields exactly one item only when the number is
   * followed by nothing at all.
   */
  function GetInteger(s: string): (r: Option<int>)
    ensures r.Some? <==> ScanDecimal(s).Some? && ScanDecimal(s).value.1 == |s|
    ensures r.Some? ==> r.value == ScanDecimal(s).value.0 && IsDigit(s[|s| - 1])
  {
    match ScanDecimal(s)
    case None => None
    case Some((v, n)) => if n == |s| then Some(v) else None
  }

  /** getPositive: an integer, as getInteger reads it, that is not negative. */
  function GetPositive(s: string): (r: Option<nat>)
    ensures r.Some? <==> GetInteger(s).Some? && GetInteger(s).value >= 0
    ensures r.Some? ==> r.value == GetInteger(s).value
  {
    match GetInteger(s)
    case None => None
    case Some(v) => if v >= 0 then Some(v) else None
  }

  /** printf ("%d", n) for a natural number. */
  function ShowNat(n: nat): (s: string)
    ensures |s| > 0 && forall k :: 0 <= k < |s| ==> IsDigit(s[k])
  {
    var last := [('0' as int + n % 10) as char];
    if n < 10 then last else ShowNat(n / 10) + last
  }

  /** printf ("%d", n). */
  function Show(n: int): string {
    if n < 0 then "-" + ShowNat(-n) else ShowNat(n)
  }

  lemma {:induction false} DigitsValueOfShowNat(n: nat)
    ensures DigitsValue(ShowNat(n)) == n
  {
    var s := ShowNat(n);
    if n >= 10 {
      DigitsValueOfShowNat(n / 10);
      assert s[..|s| - 1] == ShowNat(n / 10);
    }
  }

  lemma {:induction false} LeadingDigitsOfDigits(s: string)
    requires forall k :: 0 <= k < |s| ==> IsDigit(s[k])
    ensures LeadingDigits(s) == |s|
  {
    if s != [] {
      LeadingDigitsOfDigits(s[1..]);
    }
  }

  /** Round trip: getInteger reads back every number printf prints. */
  lemma GetIntegerOfShow(n: int)
    ensures GetInteger(Show(n)) == Some(n)
  {
    var s := Show(n);
    assert !IsSpace(s[0]);
    assert LeadingSpaces(s) == 0 && s[0..] == s;
    ScanNumberOfShow(n);
  }

  lemma ScanNumberOfShow(n: int)
    ensures ScanNumber(Show(n)) == Some((n, |Show(n)|))
  {
    var digits := ShowNat(if n < 0 then -n else n);
    DigitsValueOfShowNat(if n < 0 then -n else n);
    if n < 0 {
      ScanNumberOfNegative(digits);
    } else {
      ScanNumberOfDigits(digits);
    }
  }

  lemma ScanNumberOfDigits(ds: string)
    requires |ds| > 0 && forall k :: 0 <= k < |ds| ==> IsDigit(ds[k])
    ensures ScanNumber(ds) == Some((DigitsValue(ds) as int, |ds|))
  {
    assert ds[0] != '+' && ds[0] != '-';
    assert ds[0..] == ds;
    LeadingDigitsOfDigits(ds);
    assert ds[0..0 + |ds|] == ds;
  }

  lemma ScanNumberOfNegative(ds: string)
    requires |ds| > 0 && forall k :: 0 <= k < |ds| ==> IsDigit(ds[k])
    ensures ScanNumber("-" + ds) == Some((-(DigitsValue(ds) as int), |ds| + 1))
  {
    LeadingDigitsOfDigits(ds);
    var s := "-" + ds;
    assert s[0] == '-' && s[1..] == ds && s[1..1 + |ds|] == ds;
  }

  /** Leading white space is skipped: " 42" reads as 42. */
  lemma {:induction false} GetIntegerSkipsSpace(c: char, s: string)
    requires IsSpace(c)
    ensures GetInteger([c] + s) == GetInteger(s)
  {
    ScanDecimalSkipsSpace(c, s);
  }

  lemma ScanDecimalSkipsSpace(c: char, s: string)
    requires IsSpace(c)
    ensures ScanDecimal([c] + s).Some? <==> ScanDecimal(s).Some?
    ensures ScanDecimal(s).Some? ==>
      ScanDecimal([c] + s).value == (ScanDecimal(s).value.0, ScanDecimal(s).value.1 + 1)
  {
    var t := [c] + s;
    assert t[0] == c && t[1..] == s;
    var i := LeadingSpaces(s);
    assert LeadingSpaces(t) == 1 + i;
    assert t[1 + i..] == s[i..];
  }

  /** Anything after the number, even a single blank, makes getInteger fail. */
  lemma TrailingCharacterRejected(s: string, c: char)
    requires GetInteger(s).Some?
    requires !IsDigit(c)
    ensures GetInteger(s + [c]) == None
  {
    var t := s + [c];
    var i := LeadingSpaces(s);
    assert i < |s| by {
      var n := ScanDecimal(s).value.1;
      assert n == |s| && n > 0;
    }
    LeadingSpacesOfExtension(s, [c], i);
    assert t[i..] == s[i..] + [c];
    ScanNumberOfExtension(s[i..], c);
  }

  /** A number that fills `u` is read the same when a non-digit follows. */
  lemma ScanNumberOfExtension(u: string, c: char)
    requires ScanNumber(u).Some? && ScanNumber(u).value.1 == |u|
    requires !IsDigit(c)
    ensures ScanNumber(u + [c]) == ScanNumber(u)
  {
    var t := u + [c];
    var sign := if 0 < |u| && (u[0] == '+' || u[0] == '-') then 1 else 0;
    assert 0 < |u|;
    assert t[0] == u[0];
    var d := LeadingDigits(u[sign..]);
    assert sign + d == |u|;
    assert t[sign..] == u[sign..] + [c];
    LeadingDigitsOfExtension(u[sign..], [c], d);
    assert t[sign..sign + d] == u[sign..sign + d];
  }

  lemma {:induction false} LeadingSpacesOfExtension(s: string, u: string, n: nat)
    requires n == LeadingSpaces(s) && n < |s|
    ensures LeadingSpaces(s + u) == n
  {
    if n > 0 {
      assert (s + u)[1..] == s[1..] + u;
      LeadingSpacesOfExtension(s[1..], u, n - 1);
    }
  }

  lemma {:induction false} LeadingDigitsOfExtension(s: string, u: string, n: nat)
    requires n == LeadingDigits(s) && n == |s|
    requires u != [] && !IsDigit(u[0])
    ensures LeadingDigits(s + u) == n
  {
    if n > 0 {
      assert (s + u)[1..] == s[1..] + u;
      LeadingDigitsOfExtension(s[1..], u, n - 1);
    } else {
      assert (s + u)[0] == u[0];
    }
  }

  // ---------------------------------------------------------------------
  // Pure helpers of the checkers.

  /** The character of a -corners argument, as an action. */
  function CornerOf(ch: char): (r: Option<CornerAction>)
    ensures r.Some? <==> ch == '0' || ch == '-' || ch == '+'
  {
    if ch == '0' then Some(Ignore)
    else if ch == '-' then Some(DontLock)
    else if ch == '+' then Some(ForceLock)
    else None
  }

  /** Clamps a number of minutes to [lo, hi] and converts it to seconds. */
  function ClampToSeconds(mins: int, lo: int, hi: int): (secs: int)
    requires lo <= hi
    ensures lo * 60 <= secs <= hi * 60
    ensures lo <= mins <= hi ==> secs == mins * 60
    ensures mins < lo ==> secs == lo * 60
    ensures mins > hi ==> secs == hi * 60
  {
    (if mins < lo then lo else if mins > hi then hi else mins) * 60
  }

  /**
   * addExecToCommand: a command holding no ';' is prefixed with "exec ",
   * so that the shell replaces itself by it; any other is left alone.
   */
  function AddExecToCommand(cmd: string): (r: string)
    ensures r == cmd <==> ';' in cmd
    ensures |r| >= |cmd| && r[|r| - |cmd|..] == cmd
    ensures r != cmd ==> r[..|r| - |cmd|] == "exec "
  {
    if ';' in cmd then cmd else "exec " + cmd
  }

  /** A command with " &" appended, so that the shell runs it in the background. */
  function Backgrounded(cmd: string): (r: string)
    ensures |r| == |cmd| + 2 && r[..|cmd|] == cmd && r[|cmd|..] == " &"
  {
    cmd + " &"
  }

  /** C integer division (truncating towards zero) by a positive divisor. */
  function TruncDiv(a: int, b: int): (q: int)
    requires b > 0
    ensures a >= 0 ==> q == a / b
    ensures a < 0 ==> q == -((-a) / b)
  {
    if a >= 0 then a / b else -((-a) / b)
  }

  /** The size in pixels of one screen. */
  datatype Screen = Screen(width: nat, height: nat)

  function Min(a: int, b: int): int {
    if a < b then a else b
  }

  /** A quarter of the smaller side of a screen. */
  function QuarterSide(s: Screen): nat {
    Min(s.width, s.height) / 4
  }

  /** The largest corner size cornerSizeChecker allows: 32000 capped by every screen. */
  function CornerLimit(screens: seq<Screen>): (lim: int)
    ensures lim <= 32000
    ensures forall k :: 0 <= k < |screens| ==> lim <= QuarterSide(screens[k])
    ensures lim == 32000 || exists k :: 0 <= k < |screens| && lim == QuarterSide(screens[k])
  {
    if screens == [] then 32000
    else Min(CornerLimit(screens[..|screens| - 1]), QuarterSide(screens[|screens| - 1]))
  }

  /** One screen of cornerSizeChecker's loop lowers the size to the screen's quarter side when that is smaller. */
  lemma CornerStep(m: int, scr: Screen)
    ensures (if m > scr.width / 4 || m > scr.height / 4 then Min(scr.width, scr.height) / 4 else m)
         == Min(m, QuarterSide(scr))
  {
    if scr.width < scr.height {
      assert scr.width / 4 <= scr.height / 4;
    } else {
      assert scr.height / 4 <= scr.width / 4;
    }
  }

  /** The loop of cornerSizeChecker computes CornerLimit. */
  method MaxCornerSize(screens: seq<Screen>) returns (maxCornerSize: int)
    ensures maxCornerSize == CornerLimit(screens)
  {
    maxCornerSize := 32000;
    var s := 0;
    while s < |screens|
      invariant 0 <= s <= |screens|
      invariant maxCornerSize == CornerLimit(screens[..s])
    {
      var scr := screens[s];
      CornerStep(maxCornerSize, scr);
      if maxCornerSize > scr.width / 4 || maxCornerSize > scr.height / 4 {
        maxCornerSize := Min(scr.width, scr.height) / 4;
      }
      assert screens[..s + 1][..s] == screens[..s];
      s := s + 1;
    }
    assert screens[..s] == screens;
  }

  // ---------------------------------------------------------------------
  // The option table.

  datatype Opt =
    | HelpOpt | VersionOpt | LockerOpt | NowLockerOpt | KillerOpt | NotifierOpt
    | CornersOpt | CornerSizeOpt | CornerDelayOpt | CornerRedelayOpt | KillTimeOpt
    | TimeOpt | NotifyOpt | BellOpt | SecureOpt | EnableOpt | DisableOpt | ToggleOpt
    | ExitOpt | LockNowOpt | UnlockNowOpt | RestartOpt | ResetSaverOpt | NoCloseOpt
    | NoCloseOutOpt | NoCloseErrOpt | DetectSleepOpt

  /** The central option table, in its order (which matters). */
  const Table: seq<Opt> := [
    HelpOpt, VersionOpt, LockerOpt, NowLockerOpt, KillerOpt, NotifierOpt,
    CornersOpt, CornerSizeOpt, CornerDelayOpt, CornerRedelayOpt, KillTimeOpt,
    TimeOpt, NotifyOpt, BellOpt, SecureOpt, EnableOpt, DisableOpt, ToggleOpt,
    ExitOpt, LockNowOpt, UnlockNowOpt, RestartOpt, ResetSaverOpt, NoCloseOpt,
    NoCloseOutOpt, NoCloseErrOpt, DetectSleepOpt]

  /**
   * The options of the table that have a consistency checker sit in this
   * order: locker, nowlocker, killer, notifier, cornersize, cornerredelay,
   * killtime, time, notify, bell. So the redelay and lock-time checkers run
   * before the notify checker.
   */
  lemma CheckerPositions()
    ensures Table[2] == LockerOpt && Table[3] == NowLockerOpt && Table[4] == KillerOpt
    ensures Table[5] == NotifierOpt && Table[7] == CornerSizeOpt && Table[9] == CornerRedelayOpt
    ensures Table[10] == KillTimeOpt && Table[11] == TimeOpt && Table[12] == NotifyOpt
    ensures Table[13] == BellOpt
  {
    var t := Table;
    assert t[..14] == [HelpOpt, VersionOpt, LockerOpt, NowLockerOpt, KillerOpt, NotifierOpt,
      CornersOpt, CornerSizeOpt, CornerDelayOpt, CornerRedelayOpt, KillTimeOpt, TimeOpt, NotifyOpt, BellOpt];
  }

  /** Where processOpts found a value for an option. */
  datatype Found = NotFound | CommandLine(arg: string) | ResourceByName(arg: string) | ResourceByClass(arg: string)

  /** The lookup precedence: command line, then resource by program name, then by class. */
  function Lookup(o: Opt, cmdl: map<Opt, string>, byName: map<Opt, string>, byClass: map<Opt, string>): (f: Found)
    ensures o in cmdl ==> f == CommandLine(cmdl[o])
    ensures o !in cmdl && o in byName ==> f == ResourceByName(byName[o])
    ensures o !in cmdl && o !in byName && o in byClass ==> f == ResourceByClass(byClass[o])
    ensures f == NotFound <==> o !in cmdl && o !in byName && o !in byClass
  {
    if o in cmdl then CommandLine(cmdl[o])
    else if o in byName then ResourceByName(byName[o])
    else if o in byClass then ResourceByClass(byClass[o])
    else NotFound
  }

  /** The options whose action chooses the message to send. */
  predicate IsMessageOpt(o: Opt) {
    o == EnableOpt || o == DisableOpt || o == ToggleOpt || o == ExitOpt
    || o == LockNowOpt || o == UnlockNowOpt || o == RestartOpt
  }

  /**
   * Whether the action of `o` can accept `arg`: the corners need four
   * corner characters, the bell percentage an integer, the sizes and times
   * a non-negative integer; every other option takes any value (a message
   * flag is refused only when a message was already chosen).
   */
  predicate Acceptable(o: Opt, arg: string) {
    match o
    case CornersOpt => |arg| == 4 && forall k :: 0 <= k < 4 ==> CornerOf(arg[k]).Some?
    case BellOpt => GetInteger(arg).Some?
    case CornerSizeOpt => GetPositive(arg).Some?
    case CornerDelayOpt => GetPositive(arg).Some?
    case CornerRedelayOpt => GetPositive(arg).Some?
    case KillTimeOpt => GetPositive(arg).Some?
    case TimeOpt => GetPositive(arg).Some?
    case NotifyOpt => GetPositive(arg).Some?
    case _ => true
  }

  /** The options whose action reads a value that may be malformed. */
  predicate IsValueOpt(o: Opt) {
    o == CornersOpt || o == CornerSizeOpt || o == CornerDelayOpt || o == CornerRedelayOpt
    || o == KillTimeOpt || o == TimeOpt || o == NotifyOpt || o == BellOpt
  }

  /**
   * What an action returns: -help and -version end the program
   * successfully, an option whose value cannot be read is rejected, and a
   * message flag is rejected exactly when an earlier one has already chosen
   * the message; nothing else is rejected.
   */
  ghost predicate ActSpec(o: Opt, arg: string, oldMessage: Message, r: ActionResult) {
    && (o == HelpOpt || o == VersionOpt <==> r == ExitsWith(ExitSuccess))
    && (r.ExitsWith? ==> r.code == ExitSuccess)
    && (!Acceptable(o, arg) ==> r == Rejected)
    && (r == Rejected ==> !Acceptable(o, arg) || IsMessageOpt(o))
    && (IsMessageOpt(o) ==> (r == Rejected <==> oldMessage != NoMessage))
  }

  /** An option that reads no number and no corners accepts any value. */
  lemma AlwaysAcceptable(o: Opt, arg: string)
    requires !IsValueOpt(o)
    ensures Acceptable(o, arg)
  {
  }

  /** Accepting an option that is neither a value option, a message flag nor -help/-version meets ActSpec. */
  lemma AcceptedActSpec(o: Opt, arg: string, oldMessage: Message)
    requires !IsValueOpt(o) && !IsMessageOpt(o) && o != HelpOpt && o != VersionOpt
    ensures ActSpec(o, arg, oldMessage, Accepted)
  {
    AlwaysAcceptable(o, arg);
  }

  /** A message flag's result meets ActSpec when it is rejected exactly if a message was chosen before. */
  lemma MessageActSpec(o: Opt, arg: string, oldMessage: Message, r: ActionResult)
    requires IsMessageOpt(o)
    requires r == (if oldMessage == NoMessage then Accepted else Rejected)
    ensures ActSpec(o, arg, oldMessage, r)
  {
    AlwaysAcceptable(o, arg);
  }

  /** The message a message flag chooses. */
  function MessageOf(o: Opt): (m: Message)
    requires IsMessageOpt(o)
    ensures m != NoMessage
    ensures o == DisableOpt <==> m == Disable
    ensures o == EnableOpt <==> m == Enable
    ensures o == ToggleOpt <==> m == Toggle
    ensures o == ExitOpt <==> m == Exit
    ensures o == LockNowOpt <==> m == LockNow
    ensures o == UnlockNowOpt <==> m == UnlockNow
    ensures o == RestartOpt <==> m == Restart
  {
    match o
    case DisableOpt => Disable
    case EnableOpt => Enable
    case ToggleOpt => Toggle
    case ExitOpt => Exit
    case LockNowOpt => LockNow
    case UnlockNowOpt => UnlockNow
    case RestartOpt => Restart
  }

  /** Every option has its place in the table. */
  lemma TableHoldsAll(o: Opt)
    ensures o in Table
  {
  }

  /** What an action function does with its argument. */
  datatype ActionResult = Accepted | Rejected | ExitsWith(code: int)

  /** What processOpts lets its caller do. */
  datatype OptsOutcome = Proceed | ExitNow(code: int)

  class Settings {
    var locker: string
    var nowLocker: string
    var notifier: string
    var killer: string
    var lockTime: int
    var killTime: int
    var notifyMargin: int
    var secure: bool
    var bellPercent: int
    var cornerSize: nat
    var cornerDelay: int
    var cornerRedelay: int
    var notifyLock: bool
    var useRedelay: bool
    var corners: array<CornerAction>
    var resetSaver: bool
    var noCloseOut: bool
    var noCloseErr: bool
    var messageToSend: Message
    var detectSleep: bool
    var notifierSpecified: bool
    var killerSpecified: bool
    var killTimeSpecified: bool
    var redelaySpecified: bool
    var bellSpecified: bool
    var dummySpecified: bool

    ghost predicate Valid()
      reads this
    {
      corners.Length == 4
    }

    /** Some corner forces a lock. */
    predicate SomeForceLockCorner()
      reads this, corners
      requires Valid()
    {
      corners[0] == ForceLock || corners[1] == ForceLock
      || corners[2] == ForceLock || corners[3] == ForceLock
    }

    /** What the consistency checkers guarantee once they have all run. */
    ghost predicate Consistent(screens: seq<Screen>)
      reads this, corners
    {
      && Valid()
      && MinLockMins * 60 <= lockTime <= MaxLockMins * 60
      && ((killTimeSpecified && !killerSpecified) || MinKillMins * 60 <= killTime <= MaxKillMins * 60)
      && -100 <= bellPercent <= 100
      && cornerSize <= CornerLimit(screens)
      && (redelaySpecified || cornerRedelay == cornerDelay)
      && (notifyLock && SomeForceLockCorner() ==>
            notifyMargin <= Min(cornerDelay, cornerRedelay) && notifyMargin <= TruncDiv(lockTime, 2))
    }

    /** The initial values of the option globals. */
    constructor ()
      ensures Valid() && fresh(corners)
      ensures locker == Locker && nowLocker == Locker && notifier == Notifier && killer == Killer
      ensures lockTime == LockMins && killTime == KillMins && notifyMargin == 0
      ensures secure == Secure && bellPercent == BellPercent && cornerSize == CornerSize
      ensures cornerDelay == CornerDelay && cornerRedelay == 0
      ensures corners[..] == [Ignore, Ignore, Ignore, Ignore]
      ensures messageToSend == NoMessage
      ensures !notifyLock && !useRedelay && !resetSaver && !noCloseOut && !noCloseErr && !detectSleep
      ensures !notifierSpecified && !killerSpecified && !killTimeSpecified
      ensures !redelaySpecified && !bellSpecified && !dummySpecified
    {
      locker, nowLocker, notifier, killer := Locker, Locker, Notifier, Killer;
      lockTime, killTime, notifyMargin := LockMins, KillMins, 0;
      secure, bellPercent, cornerSize := Secure, BellPercent, CornerSize;
      cornerDelay, cornerRedelay := CornerDelay, 0;
      notifyLock, useRedelay := false, false;
      corners := new CornerAction[4](_ => Ignore);
      resetSaver, noCloseOut, noCloseErr := false, false, false;
      messageToSend := NoMessage;
      detectSleep := false;
      notifierSpecified, killerSpecified, killTimeSpecified := false, false, false;
      redelaySpecified, bellSpecified, dummySpecified := false, false, false;
    }

    // -------------------------------------------------------------------
    // Action functions.

    /** lockerAction: -locker sets both the locker and the immediate locker. */
    method LockerAction(arg: string) returns (ok: bool)
      modifies this`locker, this`nowLocker
      ensures ok && locker == arg && nowLocker == arg
    {
      locker := arg;
      nowLocker := arg;
      ok := true;
    }

    method NowLockerAction(arg: string) returns (ok: bool)
      modifies this`nowLocker
      ensures ok && nowLocker == arg
    {
      nowLocker := arg;
      ok := true;
    }

    method KillerAction(arg: string) returns (ok: bool)
      modifies this`killer, this`killerSpecified
      ensures ok && killer == arg && killerSpecified
    {
      killerSpecified := true;
      killer := arg;
      ok := true;
    }

    method NotifierAction(arg: string) returns (ok: bool)
      modifies this`notifier, this`notifierSpecified
      ensures ok && notifier == arg && notifierSpecified
    {
      notifierSpecified := true;
      notifier := arg;
      ok := true;
    }

    /**
     * bellAction: getInteger writes straight into bellPercent, so a number
     * followed by garbage ("12x") is rejected but still stored.
     */
    method BellAction(arg: string) returns (ok: bool)
      modifies this`bellPercent, this`bellSpecified
      ensures bellSpecified
      ensures ok <==> GetInteger(arg).Some?
      ensures ScanDecimal(arg).Some? ==> bellPercent == ScanDecimal(arg).value.0
      ensures ScanDecimal(arg).None? ==> bellPercent == old(bellPercent)
    {
      bellSpecified := true;
      var scanned := ScanDecimal(arg);
      if scanned.Some? {
        bellPercent := scanned.value.0;
      }
      ok := GetInteger(arg).Some?;
    }

    method CornerSizeAction(arg: string) returns (ok: bool)
      modifies this`cornerSize
      ensures ok <==> GetPositive(arg).Some?
      ensures cornerSize == if ok then GetPositive(arg).value else old(cornerSize)
    {
      var tmp := GetPositive(arg);
      ok := tmp.Some?;
      if ok {
        cornerSize := tmp.value;
      }
    }

    /**
     * cornersAction: the argument must be four characters from "0-+".
     * Corners are set one by one, so a bad character leaves the corners
     * before it updated.
     */
    method CornersAction(arg: string) returns (ok: bool)
      requires Valid()
      modifies corners
      ensures ok <==> |arg| == 4 && forall k :: 0 <= k < 4 ==> CornerOf(arg[k]).Some?
      ensures |arg| != 4 ==> corners[..] == old(corners[..])
      ensures |arg| == 4 ==> forall k :: 0 <= k < 4 ==>
        corners[k] == if k < FirstBadCorner(arg) then CornerOf(arg[k]).value else old(corners[k])
    {
      if |arg| != 4 {
        return false;
      }
      var c := 0;
      while c < 4
        invariant 0 <= c <= 4
        invariant forall k :: 0 <= k < c ==> CornerOf(arg[k]).Some?
        invariant forall k :: 0 <= k < 4 ==>
          corners[k] == if k < c then CornerOf(arg[k]).value else old(corners[k])
      {
        match arg[c] {
          case '0' => corners[c] := Ignore;
          case '-' => corners[c] := DontLock;
          case '+' => corners[c] := ForceLock;
          case _ =>
            FirstBadCornerIs(arg, c);
            return false;
        }
        c := c + 1;
      }
      FirstBadCornerIs(arg, 4);
      ok := true;
    }

    /**
     * The time actions (TIME_ACTION): the value is stored only when it is a
     * non-negative integer; the "specified" flag is raised either way.
     */
    method LockTimeAction(arg: string) returns (ok: bool)
      modifies this`lockTime, this`dummySpecified
      ensures ok <==> GetPositive(arg).Some?
      ensures lockTime == if ok then GetPositive(arg).value else old(lockTime)
      ensures dummySpecified
    {
      var tmp := GetPositive(arg);
      ok := tmp.Some?;
      if ok { lockTime := tmp.value; }
      dummySpecified := true;
    }

    method KillTimeAction(arg: string) returns (ok: bool)
      modifies this`killTime, this`killTimeSpecified
      ensures ok <==> GetPositive(arg).Some?
      ensures killTime == if ok then GetPositive(arg).value else old(killTime)
      ensures killTimeSpecified
    {
      var tmp := GetPositive(arg);
      ok := tmp.Some?;
      if ok { killTime := tmp.value; }
      killTimeSpecified := true;
    }

    method CornerDelayAction(arg: string) returns (ok: bool)
      modifies this`cornerDelay, this`dummySpecified
      ensures ok <==> GetPositive(arg).Some?
      ensures cornerDelay == if ok then GetPositive(arg).value else old(cornerDelay)
      ensures dummySpecified
    {
      var tmp := GetPositive(arg);
      ok := tmp.Some?;
      if ok { cornerDelay := tmp.value; }
      dummySpecified := true;
    }

    method CornerRedelayAction(arg: string) returns (ok: bool)
      modifies this`cornerRedelay, this`redelaySpecified
      ensures ok <==> GetPositive(arg).Some?
      ensures cornerRedelay == if ok then GetPositive(arg).value else old(cornerRedelay)
      ensures redelaySpecified
    {
      var tmp := GetPositive(arg);
      ok := tmp.Some?;
      if ok { cornerRedelay := tmp.value; }
      redelaySpecified := true;
    }

    /** -notify margin: turns notification on even when the margin is rejected. */
    method NotifyAction(arg: string) returns (ok: bool)
      modifies this`notifyMargin, this`notifyLock
      ensures ok <==> GetPositive(arg).Some?
      ensures notifyMargin == if ok then GetPositive(arg).value else old(notifyMargin)
      ensures notifyLock
    {
      var tmp := GetPositive(arg);
      ok := tmp.Some?;
      if ok { notifyMargin := tmp.value; }
      notifyLock := true;
    }

    /**
     * The message actions (MESSAGE_ACTION): a message flag is accepted only
     * while no message has been chosen, so the first one stays.
     */
    method MessageAction(m: Message) returns (ok: bool)
      requires m != NoMessage
      modifies this`messageToSend
      ensures ok <==> old(messageToSend) == NoMessage
      ensures messageToSend == if ok then m else old(messageToSend)
    {
      if messageToSend != NoMessage {
        return false;
      }
      messageToSend := m;
      ok := true;
    }

    // -------------------------------------------------------------------
    // Consistency checkers.

    method LockerCheck()
      modifies this`locker
      ensures locker == AddExecToCommand(old(locker))
    {
      locker := AddExecToCommand(locker);
    }

    method NowLockerCheck()
      modifies this`nowLocker
      ensures nowLocker == AddExecToCommand(old(nowLocker))
    {
      nowLocker := AddExecToCommand(nowLocker);
    }

    /** notifierChecker: a notifier is run in the background, and only with -notify. */
    method NotifierCheck()
      modifies this`notifier
      ensures notifier == if old(notifier) != "" && notifyLock then Backgrounded(old(notifier)) else old(notifier)
    {
      if notifier != "" {
        if notifyLock {
          notifier := Backgrounded(notifier);
        }
      }
    }

    method KillerCheck()
      modifies this`killer
      ensures killer == if old(killer) != "" then Backgrounded(old(killer)) else old(killer)
    {
      if killer != "" {
        killer := Backgrounded(killer);
      }
    }

    /** cornerSizeChecker: no corner may exceed a quarter of a screen's smaller side. */
    method CornerSizeCheck(screens: seq<Screen>)
      modifies this`cornerSize
      ensures cornerSize <= CornerLimit(screens)
      ensures old(cornerSize) <= CornerLimit(screens) ==> cornerSize == old(cornerSize)
      ensures old(cornerSize) > CornerLimit(screens) ==> cornerSize == CornerLimit(screens)
    {
      var maxCornerSize := MaxCornerSize(screens);
      if cornerSize > maxCornerSize {
        assert maxCornerSize >= 0 by { CornerLimitNonNegative(screens); }
        cornerSize := maxCornerSize;
      }
    }

    method CornerReDelayCheck()
      modifies this`cornerRedelay
      ensures cornerRedelay == if redelaySpecified then old(cornerRedelay) else cornerDelay
    {
      if !redelaySpecified {
        cornerRedelay := cornerDelay;
      }
    }

    /**
     * killTimeChecker: -killtime without -killer leaves the kill time as
     * given (not clamped, not converted to seconds).
     */
    method KillTimeCheck()
      modifies this`killTime
      ensures killTimeSpecified && !killerSpecified ==> killTime == old(killTime)
      ensures !(killTimeSpecified && !killerSpecified) ==>
        killTime == ClampToSeconds(old(killTime), MinKillMins, MaxKillMins)
    {
      if killTimeSpecified && !killerSpecified {
        return;
      }
      if killTime < MinKillMins {
        killTime := MinKillMins;
      } else if killTime > MaxKillMins {
        killTime := MaxKillMins;
      }
      killTime := killTime * 60;
    }

    /** lockTimeChecker: clamps the lock time to [1, 60] minutes, then converts it to seconds. */
    method LockTimeCheck()
      modifies this`lockTime
      ensures lockTime == ClampToSeconds(old(lockTime), MinLockMins, MaxLockMins)
    {
      if lockTime < MinLockMins {
        lockTime := MinLockMins;
      } else if lockTime > MaxLockMins {
        lockTime := MaxLockMins;
      }
      lockTime := lockTime * 60;
    }

    /**
     * notifyChecker: with notification on and a force-lock corner, the
     * notification margin is cut to the shorter corner delay and to half
     * the lock time.
     */
    method NotifyCheck()
      requires Valid()
      modifies this`notifyMargin
      ensures notifyLock && SomeForceLockCorner() ==>
        notifyMargin <= Min(cornerDelay, cornerRedelay) && notifyMargin <= TruncDiv(lockTime, 2)
      ensures notifyMargin <= old(notifyMargin)
      ensures !(notifyLock && SomeForceLockCorner()) ==> notifyMargin == old(notifyMargin)
      ensures notifyMargin == old(notifyMargin) || notifyMargin == Min(cornerDelay, cornerRedelay)
           || notifyMargin == TruncDiv(lockTime, 2)
    {
      if notifyLock && SomeForceLockCorner() {
        var minDelay := Min(cornerDelay, cornerRedelay);
        if notifyMargin > minDelay {
          notifyMargin := minDelay;
        }
        if notifyMargin > TruncDiv(lockTime, 2) {
          notifyMargin := TruncDiv(lockTime, 2);
        }
      }
    }

    /**
     * bellChecker: -bell is void without -notify or together with
     * -notifier; an out-of-range percentage falls back to the default.
     */
    method BellCheck()
      modifies this`bellPercent
      ensures -100 <= bellPercent <= 100
      ensures var b := if bellSpecified && (!notifyLock || notifierSpecified) then 0 else old(bellPercent);
        bellPercent == if -100 <= b <= 100 then b else BellPercent
    {
      if bellSpecified {
        if !notifyLock {
          bellPercent := 0;
        } else if notifierSpecified {
          bellPercent := 0;
        }
      }
      if bellPercent < -100 || bellPercent > 100 {
        bellPercent := BellPercent;
      }
    }

    /** What the command checkers make of the commands they were given. */
    ghost predicate CommandsChecked(oldLocker: string, oldNowLocker: string, oldKiller: string, oldNotifier: string)
      reads this
    {
      && locker == AddExecToCommand(oldLocker)
      && nowLocker == AddExecToCommand(oldNowLocker)
      && killer == (if oldKiller != "" then Backgrounded(oldKiller) else oldKiller)
      && notifier == (if oldNotifier != "" && notifyLock then Backgrounded(oldNotifier) else oldNotifier)
    }

    /** The consistency checkers, run in table order (see CheckerPositions). */
    method RunCheckers(screens: seq<Screen>)
      requires Valid()
      modifies this`locker, this`nowLocker, this`killer, this`notifier, this`cornerSize
      modifies this`cornerRedelay, this`killTime, this`lockTime, this`notifyMargin, this`bellPercent
      ensures Consistent(screens)
      ensures CommandsChecked(old(locker), old(nowLocker), old(killer), old(notifier))
    {
      CommandCheckers();
      LimitCheckers(screens);
    }

    /** The checkers that rewrite the commands: lockerCheck to notifierCheck. */
    method CommandCheckers()
      modifies this`locker, this`nowLocker, this`killer, this`notifier
      ensures CommandsChecked(old(locker), old(nowLocker), old(killer), old(notifier))
    {
      LockerCheck();
      NowLockerCheck();
      KillerCheck();
      NotifierCheck();
    }

    /** The checkers that bound the numbers: cornerSizeCheck to bellCheck. */
    method LimitCheckers(screens: seq<Screen>)
      requires Valid()
      modifies this`cornerSize, this`cornerRedelay, this`killTime, this`lockTime, this`notifyMargin, this`bellPercent
      ensures Consistent(screens)
    {
      CornerSizeCheck(screens);
      CornerReDelayCheck();
      KillTimeCheck();
      LockTimeCheck();
      NotifyCheck();
      BellCheck();
    }

    /** The action function of an option, applied to the value found for it. */
    method Act(o: Opt, arg: string) returns (r: ActionResult)
      requires Valid()
      modifies this`locker, this`nowLocker, this`killer, this`killerSpecified, this`notifier, this`notifierSpecified
      modifies this`cornerSize, this`cornerDelay, this`dummySpecified, this`cornerRedelay, this`redelaySpecified
      modifies this`killTime, this`killTimeSpecified, this`lockTime, this`notifyMargin, this`notifyLock
      modifies this`bellPercent, this`bellSpecified, this`messageToSend, corners
      modifies this`secure, this`resetSaver, this`noCloseOut, this`noCloseErr, this`detectSleep
      ensures Valid() && corners == old(corners)
      ensures ActSpec(o, arg, old(messageToSend), r)
    {
      if IsValueOpt(o) {
        r := ValueAct(o, arg);
      } else if IsMessageOpt(o) {
        r := MessageAct(o, arg);
      } else {
        r := OtherAct(o, arg);
      }
    }

    /** Act on -help, -version, a command option or a boolean option. */
    method OtherAct(o: Opt, arg: string) returns (r: ActionResult)
      requires !IsValueOpt(o) && !IsMessageOpt(o)
      modifies this`locker, this`nowLocker, this`killer, this`killerSpecified, this`notifier, this`notifierSpecified
      modifies this`secure, this`resetSaver, this`noCloseOut, this`noCloseErr, this`detectSleep
      ensures ActSpec(o, arg, messageToSend, r)
    {
      if o == HelpOpt || o == VersionOpt {
        r := ExitsWith(ExitSuccess);
        AlwaysAcceptable(o, arg);
      } else if o == LockerOpt || o == NowLockerOpt || o == KillerOpt || o == NotifierOpt {
        CommandAction(o, arg);
        r := Accepted;
        AcceptedActSpec(o, arg, messageToSend);
      } else {
        FlagAction(o);
        r := Accepted;
        AcceptedActSpec(o, arg, messageToSend);
      }
    }

    /** Act on an option that reads a number or the corners. */
    method ValueAct(o: Opt, arg: string) returns (r: ActionResult)
      requires Valid() && IsValueOpt(o)
      modifies this`cornerSize, this`cornerDelay, this`dummySpecified, this`cornerRedelay, this`redelaySpecified
      modifies this`killTime, this`killTimeSpecified, this`lockTime, this`notifyMargin, this`notifyLock
      modifies this`bellPercent, this`bellSpecified, corners
      ensures ActSpec(o, arg, messageToSend, r)
    {
      var ok := ValueAction(o, arg);
      r := if ok then Accepted else Rejected;
    }

    /** Act on a message flag. */
    method MessageAct(o: Opt, arg: string) returns (r: ActionResult)
      requires IsMessageOpt(o)
      modifies this`messageToSend
      ensures ActSpec(o, arg, old(messageToSend), r)
    {
      ghost var before := messageToSend;
      var ok := MessageAction(MessageOf(o));
      r := if ok then Accepted else Rejected;
      MessageActSpec(o, arg, before, r);
    }

    /** The actions that store a command. */
    method CommandAction(o: Opt, arg: string)
      requires o == LockerOpt || o == NowLockerOpt || o == KillerOpt || o == NotifierOpt
      modifies this`locker, this`nowLocker, this`killer, this`killerSpecified, this`notifier, this`notifierSpecified
      ensures o == LockerOpt ==> locker == arg && nowLocker == arg
      ensures o == NowLockerOpt ==> nowLocker == arg && locker == old(locker)
      ensures o == KillerOpt ==> killer == arg && killerSpecified
      ensures o == NotifierOpt ==> notifier == arg && notifierSpecified
      ensures o != LockerOpt ==> locker == old(locker)
      ensures o != LockerOpt && o != NowLockerOpt ==> nowLocker == old(nowLocker)
      ensures o != KillerOpt ==> killer == old(killer) && killerSpecified == old(killerSpecified)
      ensures o != NotifierOpt ==> notifier == old(notifier) && notifierSpecified == old(notifierSpecified)
    {
      var ok: bool;
      match o {
      case LockerOpt => ok := LockerAction(arg);
      case NowLockerOpt => ok := NowLockerAction(arg);
      case KillerOpt => ok := KillerAction(arg);
      case NotifierOpt => ok := NotifierAction(arg);
      }
    }

    /** The actions that read a number or the corners: they accept exactly what Acceptable says. */
    method ValueAction(o: Opt, arg: string) returns (ok: bool)
      requires Valid() && IsValueOpt(o)
      modifies this`cornerSize, this`cornerDelay, this`dummySpecified, this`cornerRedelay, this`redelaySpecified
      modifies this`killTime, this`killTimeSpecified, this`lockTime, this`notifyMargin, this`notifyLock
      modifies this`bellPercent, this`bellSpecified, corners
      ensures ok <==> Acceptable(o, arg)
    {
      match o {
      case CornersOpt => ok := CornersAction(arg);
      case CornerSizeOpt => ok := CornerSizeAction(arg);
      case CornerDelayOpt => ok := CornerDelayAction(arg);
      case CornerRedelayOpt => ok := CornerRedelayAction(arg);
      case KillTimeOpt => ok := KillTimeAction(arg);
      case TimeOpt => ok := LockTimeAction(arg);
      case NotifyOpt => ok := NotifyAction(arg);
      case BellOpt => ok := BellAction(arg);
      }
    }

    /** The boolean options (BOOL_ACTION and noCloseAction), which always accept. */
    method FlagAction(o: Opt)
      requires o == SecureOpt || o == ResetSaverOpt || o == NoCloseOpt || o == NoCloseOutOpt
            || o == NoCloseErrOpt || o == DetectSleepOpt
      modifies this`secure, this`resetSaver, this`noCloseOut, this`noCloseErr, this`detectSleep
      ensures secure == (old(secure) || o == SecureOpt)
      ensures resetSaver == (old(resetSaver) || o == ResetSaverOpt)
      ensures noCloseOut == (old(noCloseOut) || o == NoCloseOpt || o == NoCloseOutOpt)
      ensures noCloseErr == (old(noCloseErr) || o == NoCloseOpt || o == NoCloseErrOpt)
      ensures detectSleep == (old(detectSleep) || o == DetectSleepOpt)
    {
      match o {
      case SecureOpt => secure := true;
      case ResetSaverOpt => resetSaver := true;
      case NoCloseOpt => noCloseOut := true; noCloseErr := true;
      case NoCloseOutOpt => noCloseOut := true;
      case NoCloseErrOpt => noCloseErr := true;
      case DetectSleepOpt => detectSleep := true;
      }
    }

    /**
     * processOpts, past the parsing of the command line and the resource
     * databases: every option of the table, in table order, gets its action
     * called with the value the lookup precedence finds. A rejected command
     * line value ends the program through usage(); a rejected resource is
     * ignored. Then the checkers run.
     */
    method ProcessOpts(cmdl: map<Opt, string>, byName: map<Opt, string>, byClass: map<Opt, string>,
                       strayArguments: bool, screens: seq<Screen>) returns (outcome: OptsOutcome)
      requires Valid()
      modifies this, corners
      ensures Valid()
      ensures strayArguments ==> outcome == ExitNow(ExitFailure)
      ensures outcome.ExitNow? ==> outcome.code == ExitSuccess || outcome.code == ExitFailure
      ensures outcome == Proceed ==> Consistent(screens)
      // -help wins, then -version, each from the command line or a resource
      ensures !strayArguments && Lookup(HelpOpt, cmdl, byName, byClass) != NotFound ==> outcome == ExitNow(ExitSuccess)
      ensures !strayArguments && Lookup(VersionOpt, cmdl, byName, byClass) != NotFound ==> outcome == ExitNow(ExitSuccess)
      ensures outcome == ExitNow(ExitSuccess) ==>
        Lookup(HelpOpt, cmdl, byName, byClass) != NotFound || Lookup(VersionOpt, cmdl, byName, byClass) != NotFound
      // a value on the command line that its action cannot accept ends the program
      ensures !strayArguments && Lookup(HelpOpt, cmdl, byName, byClass) == NotFound
           && Lookup(VersionOpt, cmdl, byName, byClass) == NotFound
           && (exists o :: o in cmdl && !Acceptable(o, cmdl[o]))
           ==> outcome == ExitNow(ExitFailure)
      // a rejected resource is ignored: only the command line can make it fail
      ensures outcome == ExitNow(ExitFailure) ==>
        strayArguments || exists o :: o in cmdl && (!Acceptable(o, cmdl[o]) || IsMessageOpt(o))
    {
      if strayArguments {
        return ExitNow(ExitFailure);
      }
      var j := 0;
      while j < |Table|
        invariant 0 <= j <= |Table|
        invariant Valid() && corners == old(corners)
        invariant j > 0 ==> Lookup(HelpOpt, cmdl, byName, byClass) == NotFound
        invariant j > 1 ==> Lookup(VersionOpt, cmdl, byName, byClass) == NotFound
        invariant forall k :: 0 <= k < j && Table[k] in cmdl ==> Acceptable(Table[k], cmdl[Table[k]])
      {
        var found := Lookup(Table[j], cmdl, byName, byClass);
        match found {
          case NotFound =>
          case CommandLine(arg) =>
            var r := Act(Table[j], arg);
            if r.ExitsWith? {
              return ExitNow(r.code);
            } else if r == Rejected {
              return ExitNow(ExitFailure);
            }
          case ResourceByName(arg) =>
            var r := Act(Table[j], arg);
            if r.ExitsWith? {
              return ExitNow(r.code);
            }
          case ResourceByClass(arg) =>
            var r := Act(Table[j], arg);
            if r.ExitsWith? {
              return ExitNow(r.code);
            }
        }
        j := j + 1;
      }
      forall o | o in cmdl
        ensures Acceptable(o, cmdl[o])
      {
        TableHoldsAll(o);
      }
      RunCheckers(screens);
      outcome := Proceed;
    }
  }

  /** The index of the first character that is not a corner action, or 4. */
  ghost function FirstBadCorner(arg: string): (k: nat)
    requires |arg| == 4
    ensures k <= 4
    ensures forall i :: 0 <= i < k ==> CornerOf(arg[i]).Some?
    ensures k < 4 ==> CornerOf(arg[k]).None?
  {
    if CornerOf(arg[0]).None? then 0
    else if CornerOf(arg[1]).None? then 1
    else if CornerOf(arg[2]).None? then 2
    else if CornerOf(arg[3]).None? then 3
    else 4
  }

  lemma FirstBadCornerIs(arg: string, c: nat)
    requires |arg| == 4 && c <= 4
    requires forall i :: 0 <= i < c ==> CornerOf(arg[i]).Some?
    requires c < 4 ==> CornerOf(arg[c]).None?
    ensures FirstBadCorner(arg) == c
  {
  }

  lemma {:induction false} CornerLimitNonNegative(screens: seq<Screen>)
    ensures CornerLimit(screens) >= 0
  {
    if screens != [] {
      CornerLimitNonNegative(screens[..|screens| - 1]);
    }
  }

  /** A second message flag is refused and the first message stays chosen. */
  method SecondMessageRejected(s: Settings, first: Message, second: Message)
    requires s.messageToSend == NoMessage
    requires first != NoMessage && second != NoMessage
    modifies s
    ensures s.messageToSend == first
  {
    var ok1 := s.MessageAction(first);
    var ok2 := s.MessageAction(second);
    assert ok1 && !ok2;
  }
}
