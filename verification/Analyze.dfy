// The reading of one source's history: the signals folded from its events, the verdict
// drawn from them, and its visits and attack phases.
module Analyze {
  const VISIT_GAP_MS := 30 * 60 * 1000
  const FAST_COMMAND_MS := 400

  // The names of events that the analytics tell apart; the first is the empty name.
  datatype Event =
    | Nameless | System | PortScan | SessionStart | Credential | Command | ExecAttempt | DownloadAttempt
    | Honeytoken | HttpRequest | HttpPost | TlsHello | Dropper | Other(name: string)

  // The fields of a log entry that the analytics read.
  datatype Entry = Entry(
    time: string,
    epochMs: int,
    event: Event,
    session: string,
    ip: string,
    srcIP: string,
    username: string,
    password: string,
    command: string)

  // Entries in the order they were logged.
  datatype History = Empty | Then(before: History, last: Entry)

  function HistoryOf(entries: seq<Entry>): History {
    if entries == [] then Empty else Then(HistoryOf(entries[..|entries| - 1]), entries[|entries| - 1])
  }

  // ---- what single commands and credentials betray ----

  predicate Contains(s: string, sub: string) {
    sub <= s || (s != "" && Contains(s[1..], sub))
  }

  predicate IsSentinelCred(user: string, pass: string) {
    Contains(user, "345gs5662d34") || Contains(pass, "345gs5662d34")
  }

  const LOADER_MARKERS: seq<string> := [
    "chpasswd", "chattr -ia", "authorized_keys", "echo -ne", "echo -e '\\x", "echo -e \"\\x",
    "|sh", "| sh", "|bash", "| bash"]

  predicate IsLoaderCommand(cmd: string) {
    exists i :: 0 <= i < |LOADER_MARKERS| && Contains(cmd, LOADER_MARKERS[i])
  }

  predicate IsSpace(c: char) {
    c == ' ' || '\t' <= c <= '\r'
  }

  // The runs of other characters between white space; `cur` is the one being read.
  function Fields(s: string, cur: string): seq<string> {
    if s == "" then if cur == "" then [] else [cur]
    else if !IsSpace(s[0]) then Fields(s[1..], cur + [s[0]])
    else (if cur == "" then [] else [cur]) + Fields(s[1..], "")
  }

  predicate IsAlnum(c: char) {
    'a' <= c <= 'z' || 'A' <= c <= 'Z' || '0' <= c <= '9'
  }

  predicate IsCommonApplet(name: string) {
    name in {
      "cat", "ls", "echo", "wget", "tftp", "cp", "chmod", "rm", "ps", "kill",
      "hostname", "sh", "dd", "mount", "umount", "free", "df", "ifconfig", "reboot"}
  }

  predicate IsBusyboxProbe(cmd: string) {
    var f := Fields(cmd, "");
    && |f| == 2
    && f[0] == "/bin/busybox"
    && !IsCommonApplet(f[1])
    && |f[1]| >= 3
    && forall i :: 0 <= i < |f[1]| ==> IsAlnum(f[1][i])
  }

  lemma {:induction false} FieldsOfWord(w: string, rest: string, cur: string)
    requires forall i :: 0 <= i < |w| ==> !IsSpace(w[i])
    ensures Fields(w + rest, cur) == Fields(rest, cur + w)
    decreases |w|
  {
    if w == "" {
      assert w + rest == rest && cur + w == cur;
    } else {
      assert (w + rest)[1..] == w[1..] + rest;
      FieldsOfWord(w[1..], rest, cur + [w[0]]);
      assert cur + [w[0]] + w[1..] == cur + w;
    }
  }

  // One word behind "/bin/busybox" is a presence probe exactly when it is an alphanumeric
  // nonce of three characters or more that names no common applet.
  lemma NonceIsProbe(tok: string)
    requires tok != "" && forall i :: 0 <= i < |tok| ==> !IsSpace(tok[i])
    ensures IsBusyboxProbe("/bin/busybox" + (" " + tok))
       <==> |tok| >= 3 && !IsCommonApplet(tok) && forall i :: 0 <= i < |tok| ==> IsAlnum(tok[i])
  {
    var busybox, blank := "/bin/busybox", " " + tok;
    FieldsOfWord(busybox, blank, "");
    assert "" + busybox == busybox && blank[1..] == tok;
    FieldsOfWord(tok, "", "");
    assert tok + "" == tok && "" + tok == tok;
    assert Fields(busybox + blank, "") == [busybox] + [tok];
  }

  // How the analytics read single fields: `millis` gives the Unix milliseconds of a
  // timestamp's text, 0 if it does not parse.  What follows holds whatever the rules are.
  datatype Rules = Rules(
    millis: string -> int,
    isLoader: string -> bool,
    isProbe: string -> bool,
    isSentinel: (string, string) -> bool)

  function SourceRules(millis: string -> int): Rules {
    Rules(millis, IsLoaderCommand, IsBusyboxProbe, IsSentinelCred)
  }

  predicate Sentinel(k: Rules, e: Entry) {
    e.event == Credential && k.isSentinel(e.username, e.password)
  }

  predicate Loads(k: Rules, e: Entry) {
    e.event == Command && k.isLoader(e.command)
  }

  predicate Probes(k: Rules, e: Entry) {
    e.event == Command && k.isProbe(e.command)
  }

  function EntryMs(k: Rules, e: Entry): int {
    if e.epochMs != 0 then e.epochMs else k.millis(e.time)
  }

  // ---- signals ----

  // The timing of commands: the last timestamp, and the least and greatest forward gap.
  datatype Pacing = Pacing(lastCmdMs: int, minCmdGap: int, maxCmdGap: int, sawGap: bool, fastBurst: bool)

  datatype Counts = Counts(commands: nat, credentials: nat, sessions: nat, seen: set<string>, uniqueCmds: nat)

  datatype Marks = Marks(
    scanned: bool,
    hasExec: bool,
    hasDownload: bool,
    hasBait: bool,
    sentinelCred: bool,
    probeCmd: bool,
    loaderCmd: bool)

  datatype Signals = Signals(counts: Counts, marks: Marks, pacing: Pacing)

  const NOTHING := Signals(
    Counts(0, 0, 0, {}, 0),
    Marks(false, false, false, false, false, false, false),
    Pacing(0, 0, 0, false, false))

  function Gap(p: Pacing, gap: int): Pacing {
    if gap < 0 then p
    else p.(
      minCmdGap := if !p.sawGap || gap < p.minCmdGap then gap else p.minCmdGap,
      maxCmdGap := if gap > p.maxCmdGap then gap else p.maxCmdGap,
      sawGap := true,
      fastBurst := p.fastBurst || gap < FAST_COMMAND_MS)
  }

  // A command at `ms`; one without a timestamp leaves the pacing alone.
  function Timed(p: Pacing, ms: int): Pacing {
    if ms == 0 then p
    else (if p.lastCmdMs != 0 then Gap(p, ms - p.lastCmdMs) else p).(lastCmdMs := ms)
  }

  function Counted(c: Counts, e: Entry): Counts {
    match e.event
    case SessionStart => c.(sessions := c.sessions + 1)
    case Credential => c.(credentials := c.credentials + 1)
    case Command => CommandCounted(c, e.command)
    case _ => c
  }

  function CommandCounted(c: Counts, command: string): Counts {
    c.(commands := c.commands + 1,
       seen := c.seen + {command},
       uniqueCmds := if command in c.seen then c.uniqueCmds else c.uniqueCmds + 1)
  }

  function Marked(k: Rules, m: Marks, e: Entry): Marks {
    Marks(
      m.scanned || e.event == PortScan,
      m.hasExec || e.event == ExecAttempt,
      m.hasDownload || e.event == DownloadAttempt,
      m.hasBait || e.event == Honeytoken,
      m.sentinelCred || Sentinel(k, e),
      m.probeCmd || Probes(k, e),
      m.loaderCmd || Loads(k, e))
  }

  function Observed(k: Rules, s: Signals, e: Entry): Signals {
    Signals(Counted(s.counts, e), Marked(k, s.marks, e),
            if e.event == Command then Timed(s.pacing, EntryMs(k, e)) else s.pacing)
  }

  function SignalsOf(k: Rules, h: History): Signals {
    match h
    case Empty => NOTHING
    case Then(before, e) => Observed(k, SignalsOf(k, before), e)
  }

  class SourceSignals {
    var counts: Counts
    var marks: Marks
    var pacing: Pacing

    function View(): Signals
      reads this
    {
      Signals(counts, marks, pacing)
    }

    constructor ()
      ensures View() == NOTHING
    {
      counts, marks, pacing := NOTHING.counts, NOTHING.marks, NOTHING.pacing;
    }

    method Observe(k: Rules, e: Entry)
      modifies this
      ensures counts == Counted(old(counts), e)
      ensures marks == Marked(k, old(marks), e)
      ensures pacing == if e.event == Command then Timed(old(pacing), EntryMs(k, e)) else old(pacing)
    {
      match e.event {
        case PortScan => marks := marks.(scanned := true);
        case SessionStart => counts := counts.(sessions := counts.sessions + 1);
        case Credential =>
          counts := counts.(credentials := counts.credentials + 1);
          if Sentinel(k, e) {
            marks := marks.(sentinelCred := true);
          }
        case Command =>
          CountCommand(e.command);
          if Loads(k, e) {
            marks := marks.(loaderCmd := true);
          }
          if Probes(k, e) {
            marks := marks.(probeCmd := true);
          }
          ObserveTime(EntryMs(k, e));
        case ExecAttempt => marks := marks.(hasExec := true);
        case DownloadAttempt => marks := marks.(hasDownload := true);
        case Honeytoken => marks := marks.(hasBait := true);
        case _ =>
      }
    }

    method CountCommand(command: string)
      modifies `counts
      ensures counts == CommandCounted(old(counts), command)
    {
      counts := counts.(commands := counts.commands + 1);
      if command !in counts.seen {
        counts := counts.(seen := counts.seen + {command}, uniqueCmds := counts.uniqueCmds + 1);
      } else {
        assert counts.seen + {command} == counts.seen;
      }
    }

    method ObserveTime(ms: int)
      modifies `pacing
      ensures pacing == Timed(old(pacing), ms)
    {
      if pacing.lastCmdMs != 0 && ms != 0 {
        var gap := ms - pacing.lastCmdMs;
        if gap >= 0 {
          if !pacing.sawGap || gap < pacing.minCmdGap {
            pacing := pacing.(minCmdGap := gap);
          }
          pacing := pacing.(sawGap := true);
          if gap > pacing.maxCmdGap {
            pacing := pacing.(maxCmdGap := gap);
          }
          if gap < FAST_COMMAND_MS {
            pacing := pacing.(fastBurst := true);
          }
        }
      }
      if ms != 0 {
        pacing := pacing.(lastCmdMs := ms);
      }
    }
  }

  // ---- what the signals say of the history ----

  function Count(h: History, event: Event): nat {
    match h
    case Empty => 0
    case Then(before, e) => Count(before, event) + if e.event == event then 1 else 0
  }

  function CommandTexts(h: History): set<string> {
    match h
    case Empty => {}
    case Then(before, e) => CommandTexts(before) + if e.event == Command then {e.command} else {}
  }

  predicate AnyCommand(h: History, p: string -> bool) {
    h.Then? && (AnyCommand(h.before, p) || (h.last.event == Command && p(h.last.command)))
  }

  predicate AnyCredential(h: History, p: (string, string) -> bool) {
    h.Then? && (AnyCredential(h.before, p) || (h.last.event == Credential && p(h.last.username, h.last.password)))
  }

  // Timestamps of the commands that have one, in order.
  function CommandTimes(k: Rules, h: History): (times: seq<int>)
    ensures 0 !in times
  {
    match h
    case Empty => []
    case Then(before, e) =>
      CommandTimes(k, before) + if e.event == Command && EntryMs(k, e) != 0 then [EntryMs(k, e)] else []
  }

  // The forward gaps between neighbouring timestamps.
  function Gaps(times: seq<int>): seq<int> {
    if |times| < 2 then []
    else Gaps(times[..|times| - 1]) + Forward(times[|times| - 1] - times[|times| - 2])
  }

  function Forward(gap: int): seq<int> {
    if gap >= 0 then [gap] else []
  }

  // The counters count.
  predicate Counting(c: Counts, h: History) {
    && c.commands == Count(h, Command)
    && c.credentials == Count(h, Credential)
    && c.sessions == Count(h, SessionStart)
    && c.seen == CommandTexts(h)
    && c.uniqueCmds == |CommandTexts(h)|
  }

  // Each flag is raised by the events it stands for and by nothing else.
  predicate Marking(k: Rules, m: Marks, h: History) {
    EventMarks(m, h) && TextMarks(k, m, h)
  }

  predicate EventMarks(m: Marks, h: History) {
    && (m.scanned <==> Count(h, PortScan) > 0)
    && (m.hasExec <==> Count(h, ExecAttempt) > 0)
    && (m.hasDownload <==> Count(h, DownloadAttempt) > 0)
    && (m.hasBait <==> Count(h, Honeytoken) > 0)
  }

  predicate TextMarks(k: Rules, m: Marks, h: History) {
    && (m.loaderCmd <==> AnyCommand(h, k.isLoader))
    && (m.probeCmd <==> AnyCommand(h, k.isProbe))
    && (m.sentinelCred <==> AnyCredential(h, k.isSentinel))
  }

  // The pacing is the least and the greatest of the measured gaps, and a burst is a gap
  // no one could type.
  predicate Measuring(p: Pacing, times: seq<int>) {
    && p.lastCmdMs == (if times == [] then 0 else times[|times| - 1])
    && Measures(p, Gaps(times))
  }

  predicate Measures(p: Pacing, gaps: seq<int>) {
    && (p.sawGap <==> gaps != [])
    && (gaps != [] ==> p.minCmdGap in gaps)
    && (p.maxCmdGap == 0 || p.maxCmdGap in gaps)
    && (forall g :: g in gaps ==> p.minCmdGap <= g <= p.maxCmdGap && 0 <= g)
    && (p.fastBurst <==> exists g :: g in gaps && g < FAST_COMMAND_MS)
  }

  // In every history, the folded signals mean what they are named after.
  lemma {:induction false} SignalsMean(k: Rules, h: History)
    ensures Counting(SignalsOf(k, h).counts, h)
    ensures Marking(k, SignalsOf(k, h).marks, h)
    ensures Measuring(SignalsOf(k, h).pacing, CommandTimes(k, h))
  {
    match h
    case Empty =>
    case Then(before, e) =>
      SignalsMean(k, before);
      var s := SignalsOf(k, before);
      CountStep(s.counts, h);
      EventMarkStep(k, s.marks, h);
      TextMarkStep(k, s.marks, h);
      MeasureStep(k, s.pacing, h);
  }

  lemma ScannedMeans(k: Rules, h: History)
    ensures SignalsOf(k, h).marks.scanned <==> Count(h, PortScan) > 0
  {
    SignalsMean(k, h);
  }

  lemma CountStep(c: Counts, h: History)
    requires h.Then? && Counting(c, h.before)
    ensures Counting(Counted(c, h.last), h)
  {
    if h.last.event == Command {
      SetGrows(c.seen, h.last.command);
    } else {
      assert c.seen + {} == c.seen;
    }
  }

  lemma SetGrows<T>(s: set<T>, x: T)
    ensures |s + {x}| == if x in s then |s| else |s| + 1
  {
    if x in s {
      assert s + {x} == s;
    }
  }

  lemma EventMarkStep(k: Rules, m: Marks, h: History)
    requires h.Then? && EventMarks(m, h.before)
    ensures EventMarks(Marked(k, m, h.last), h)
  {}

  lemma TextMarkStep(k: Rules, m: Marks, h: History)
    requires h.Then? && TextMarks(k, m, h.before)
    ensures TextMarks(k, Marked(k, m, h.last), h)
  {}

  lemma MeasureStep(k: Rules, p: Pacing, h: History)
    requires h.Then? && Measuring(p, CommandTimes(k, h.before))
    ensures Measuring(if h.last.event == Command then Timed(p, EntryMs(k, h.last)) else p, CommandTimes(k, h))
  {
    var times, ms := CommandTimes(k, h.before), EntryMs(k, h.last);
    if h.last.event == Command && ms != 0 {
      TimedMeasures(p, times, ms);
    } else {
      assert times + [] == times;
    }
  }

  lemma TimedMeasures(p: Pacing, times: seq<int>, ms: int)
    requires Measuring(p, times) && 0 !in times && ms != 0
    ensures Measuring(Timed(p, ms), times + [ms])
  {
    if times != [] {
      assert times[|times| - 1] in times;
      GapMeasures(p, Gaps(times), ms - p.lastCmdMs);
      GapsGrow(times, ms);
    }
  }

  lemma {:induction false} GapsGrow(times: seq<int>, ms: int)
    requires times != []
    ensures Gaps(times + [ms]) == Gaps(times) + Forward(ms - times[|times| - 1])
  {
    assert (times + [ms])[..|times|] == times;
  }

  lemma GapMeasures(p: Pacing, gaps: seq<int>, gap: int)
    requires Measures(p, gaps)
    ensures Measures(Gap(p, gap), gaps + Forward(gap))
  {
    var gaps' := gaps + Forward(gap);
    assert forall g :: g in gaps' <==> g in gaps || (gap >= 0 && g == gap);
  }

  // ---- the verdict ----

  datatype Kind = Unknown | Scanner | Bruteforce | Loader | Human

  datatype Reason =
    | LoaderCommands | SentinelCredential | BusyboxProbe | FastCommands | TriedExec | TriedDownload
    | Sprayed | BareScan | Probed | HumanPace

  datatype Verdict = Verdict(kind: Kind, confidence: int, reasons: seq<Reason>)

  function Clamp(v: int, lo: int, hi: int): int {
    if v < lo then lo else if v > hi then hi else v
  }

  function Weight(flag: bool, weight: nat): nat {
    if flag then weight else 0
  }

  function BotScore(s: Signals): nat {
    Weight(s.marks.loaderCmd, 3) + Weight(s.marks.sentinelCred, 3) + Weight(s.marks.probeCmd, 3)
    + Weight(s.pacing.fastBurst, 2) + Weight(s.marks.hasExec, 1) + Weight(s.marks.hasDownload, 1)
  }

  function Note(flag: bool, r: Reason): seq<Reason> {
    if flag then [r] else []
  }

  function BotReasons(s: Signals): seq<Reason> {
    Note(s.marks.loaderCmd, LoaderCommands) + Note(s.marks.sentinelCred, SentinelCredential) + Note(s.marks.probeCmd, BusyboxProbe)
    + Note(s.pacing.fastBurst, FastCommands) + Note(s.marks.hasExec, TriedExec) + Note(s.marks.hasDownload, TriedDownload)
  }

  predicate HumanPacing(s: Signals) {
    s.pacing.maxCmdGap > 1500 && !s.pacing.fastBurst && s.counts.commands >= 3
  }

  function Judge(s: Signals): Verdict {
    var bot, reasons := BotScore(s), BotReasons(s);
    if s.marks.loaderCmd || (s.marks.hasExec && bot >= 3) then
      Verdict(Loader, Clamp(70 + bot * 8, 0, 99), reasons)
    else if bot >= 3 then
      Verdict(Bruteforce, Clamp(70 + bot * 6, 0, 99), reasons)
    else if s.counts.commands == 0 && s.counts.credentials >= 4 then
      Verdict(Bruteforce, Clamp(45 + s.counts.credentials * 3, 0, 90), reasons + [Sprayed])
    else if s.counts.commands == 0 && s.counts.credentials == 0 && !s.marks.hasExec && !s.marks.hasDownload then
      Verdict(Scanner, 75, reasons + [if s.marks.scanned then BareScan else Probed])
    else if HumanPacing(s) && bot == 0 then
      Verdict(Human, Clamp(35 + 15, 0, 70), reasons + [HumanPace])
    else
      Verdict(Unknown, 0, reasons)
  }

  // A person is only ever guessed at: no command or credential of a bot, at least three
  // commands, never two of them closer than typing allows, and a middling confidence.
  lemma HumansAreGuesses(k: Rules, h: History)
    requires Judge(SignalsOf(k, h)).kind.Human?
    ensures 0 < Judge(SignalsOf(k, h)).confidence <= 70
    ensures Count(h, Command) >= 3 && Count(h, ExecAttempt) == 0 && Count(h, DownloadAttempt) == 0
    ensures !AnyCommand(h, k.isLoader) && !AnyCommand(h, k.isProbe) && !AnyCredential(h, k.isSentinel)
    ensures forall g :: g in Gaps(CommandTimes(k, h)) ==> g >= FAST_COMMAND_MS
  {
    SignalsMean(k, h);
  }

  // Only a source that never offered a credential, typed, executed or downloaded is a
  // scanner.
  lemma {:induction false} ScannersDidNothing(k: Rules, h: History)
    requires Judge(SignalsOf(k, h)).kind.Scanner?
    ensures Count(h, Command) == 0 && Count(h, Credential) == 0
    ensures Count(h, ExecAttempt) == 0 && Count(h, DownloadAttempt) == 0
  {
    SignalsMean(k, h);
  }

  // Every verdict but `Unknown` carries its evidence and a confidence.
  lemma VerdictHasEvidence(s: Signals)
    ensures var v := Judge(s);
            && (v.kind.Unknown? <==> v.confidence == 0)
            && (!v.kind.Unknown? ==> v.reasons != [])
            && 0 <= v.confidence <= 99
  {
    assert s.marks.loaderCmd ==> LoaderCommands in BotReasons(s);
    assert BotScore(s) > 0 ==> BotReasons(s) != [];
  }

  // Evidence is never taken back.
  predicate Grows(s: Signals, t: Signals) {
    && (s.marks.loaderCmd ==> t.marks.loaderCmd)
    && (s.marks.sentinelCred ==> t.marks.sentinelCred)
    && (s.marks.probeCmd ==> t.marks.probeCmd)
    && (s.pacing.fastBurst ==> t.pacing.fastBurst)
    && (s.marks.hasExec ==> t.marks.hasExec)
    && (s.marks.hasDownload ==> t.marks.hasDownload)
  }

  function Concat(a: History, b: History): History {
    match b
    case Empty => a
    case Then(before, e) => Then(Concat(a, before), e)
  }

  lemma {:induction false} SignalsGrow(k: Rules, h: History, more: History)
    ensures Grows(SignalsOf(k, h), SignalsOf(k, Concat(h, more)))
  {
    match more
    case Empty =>
    case Then(before, e) =>
      SignalsGrow(k, h, before);
      StepGrows(k, SignalsOf(k, h), SignalsOf(k, Concat(h, before)), e);
  }

  lemma StepGrows(k: Rules, s: Signals, t: Signals, e: Entry)
    requires Grows(s, t)
    ensures Grows(s, Observed(k, t, e))
  {}

  // A source once read as a loader stays one, at least as confidently, whatever it does
  // next; one with bot evidence enough for a verdict stays a bot, and one with any never
  // turns into a person.
  lemma {:induction false} VerdictHardens(k: Rules, h: History, more: History)
    ensures var v, w := Judge(SignalsOf(k, h)), Judge(SignalsOf(k, Concat(h, more)));
            && (v.kind.Loader? ==> w.kind.Loader? && w.confidence >= v.confidence)
            && (BotScore(SignalsOf(k, h)) >= 3 ==> w.kind.Loader? || w.kind.Bruteforce?)
            && (BotScore(SignalsOf(k, h)) > 0 ==> !w.kind.Human?)
  {
    SignalsGrow(k, h, more);
    ScoreGrows(SignalsOf(k, h), SignalsOf(k, Concat(h, more)));
  }

  lemma ScoreGrows(s: Signals, t: Signals)
    requires Grows(s, t)
    ensures BotScore(s) <= BotScore(t)
  {}

  // ---- visits and phases ----

  datatype Phase = NoPhase | Recon | Brute | Access | Exploit

  function PhaseRank(p: Phase): nat {
    match p
    case NoPhase => 0
    case Recon => 1
    case Brute => 2
    case Access => 3
    case Exploit => 4
  }

  function PhaseOf(k: Rules, e: Entry): Phase {
    match e.event
    case PortScan => Recon
    case HttpRequest => Recon
    case HttpPost => Recon
    case TlsHello => Recon
    case Credential => Brute
    case Command => if Loads(k, e) then Exploit else Access
    case ExecAttempt => Exploit
    case DownloadAttempt => Exploit
    case Dropper => Exploit
    case Honeytoken => Exploit
    case _ => NoPhase
  }

  datatype Visit = Visit(start: string, end: string, events: nat, phase: Phase, accepted: bool)

  datatype Assessment = Assessment(
    verdict: Verdict,
    phases: seq<Phase>,
    visits: seq<Visit>,
    cadenceMs: int,
    returning: bool)

  // The last timestamp other than 0.
  function LastMs(k: Rules, h: History): int {
    match h
    case Empty => 0
    case Then(before, e) => if EntryMs(k, e) != 0 then EntryMs(k, e) else LastMs(k, before)
  }

  predicate IsGap(prev: int, ms: int) {
    prev != 0 && ms != 0 && ms - prev > VISIT_GAP_MS
  }

  // The history cut where an idle gap separates two visits.
  function Segments(k: Rules, h: History): (segs: seq<History>)
    ensures segs == [] <==> h == Empty
  {
    match h
    case Empty => []
    case Then(before, e) =>
      var segs := Segments(k, before);
      if before == Empty || IsGap(LastMs(k, before), EntryMs(k, e)) then segs + [Then(Empty, e)]
      else segs[..|segs| - 1] + [Then(segs[|segs| - 1], e)]
  }

  function Length(h: History): nat {
    match h
    case Empty => 0
    case Then(before, _) => Length(before) + 1
  }

  function FirstTime(h: History): string {
    match h
    case Empty => ""
    case Then(before, e) => if before == Empty then e.time else FirstTime(before)
  }

  function LastTime(h: History): string {
    match h
    case Empty => ""
    case Then(_, e) => e.time
  }

  function Deepest(k: Rules, h: History): Phase {
    match h
    case Empty => NoPhase
    case Then(before, e) => Deeper(Deepest(k, before), PhaseOf(k, e))
  }

  function Deeper(a: Phase, b: Phase): Phase {
    if PhaseRank(b) > PhaseRank(a) then b else a
  }

  function Summary(k: Rules, seg: History): Visit {
    Visit(FirstTime(seg), LastTime(seg), Length(seg), Deepest(k, seg), Count(seg, Command) > 0)
  }

  function Summaries(k: Rules, segs: seq<History>): seq<Visit> {
    seq(|segs|, i requires 0 <= i < |segs| => Summary(k, segs[i]))
  }

  function PhasesOf(k: Rules, h: History): set<Phase> {
    match h
    case Empty => {}
    case Then(before, e) => PhasesOf(k, before) + if PhaseOf(k, e) == NoPhase then {} else {PhaseOf(k, e)}
  }

  function Ordered(reached: set<Phase>): seq<Phase> {
    (if Recon in reached then [Recon] else []) + (if Brute in reached then [Brute] else [])
    + (if Access in reached then [Access] else []) + (if Exploit in reached then [Exploit] else [])
  }

  predicate IsReturning(visits: nat, s: Signals) {
    visits >= 2 || (s.marks.scanned && (s.counts.commands > 0 || s.counts.sessions > 0))
  }

  function Assess(k: Rules, h: History): Assessment {
    var s, segs := SignalsOf(k, h), Segments(k, h);
    Assessment(Judge(s), Ordered(PhasesOf(k, h)), Summaries(k, segs), s.pacing.minCmdGap, IsReturning(|segs|, s))
  }

  function Flat(segs: seq<History>): History {
    if segs == [] then Empty else Concat(Flat(segs[..|segs| - 1]), segs[|segs| - 1])
  }

  // No idle gap inside a visit.
  predicate Unbroken(k: Rules, seg: History) {
    seg.Then? ==> Unbroken(k, seg.before) && !IsGap(LastMs(k, seg.before), EntryMs(k, seg.last))
  }

  function First(seg: History): Entry
    requires seg.Then?
  {
    if seg.before == Empty then seg.last else First(seg.before)
  }

  // Visits without an idle gap inside, and with one before each but the first.
  predicate Parted(k: Rules, segs: seq<History>) {
    segs == [] || (
      var front, seg := segs[..|segs| - 1], segs[|segs| - 1];
      && Parted(k, front)
      && seg.Then?
      && Unbroken(k, seg)
      && (front == [] || IsGap(LastMs(k, Flat(front)), EntryMs(k, First(seg)))))
  }

  lemma {:induction false} LastMsOfConcat(k: Rules, a: History, b: History)
    ensures LastMs(k, Concat(a, b)) == if LastMs(k, b) != 0 then LastMs(k, b) else LastMs(k, a)
  {
    if b.Then? {
      LastMsOfConcat(k, a, b.before);
    }
  }

  // The visits are the history, cut into stretches without an idle gap, at idle gaps.
  lemma {:induction false} VisitsPartition(k: Rules, h: History)
    ensures Flat(Segments(k, h)) == h
    ensures Parted(k, Segments(k, h))
  {
    if h.Then? {
      VisitsPartition(k, h.before);
      var segs := Segments(k, h.before);
      if h.before == Empty || IsGap(LastMs(k, h.before), EntryMs(k, h.last)) {
        NewVisit(k, segs, h.last);
      } else {
        var front, seg := segs[..|segs| - 1], segs[|segs| - 1];
        assert segs == front + [seg];
        LongerVisit(k, front, seg, h.last);
      }
    }
  }

  lemma NewVisit(k: Rules, segs: seq<History>, e: Entry)
    requires Parted(k, segs)
    requires segs == [] || IsGap(LastMs(k, Flat(segs)), EntryMs(k, e))
    ensures Flat(segs + [Then(Empty, e)]) == Then(Flat(segs), e)
    ensures Parted(k, segs + [Then(Empty, e)])
  {
    var one := Then(Empty, e);
    var segs' := segs + [one];
    assert segs'[..|segs'| - 1] == segs && segs'[|segs'| - 1] == one;
    assert Concat(Flat(segs), one) == Then(Concat(Flat(segs), Empty), e);
    assert First(one) == e;
  }

  lemma LongerVisit(k: Rules, front: seq<History>, seg: History, e: Entry)
    requires Parted(k, front + [seg])
    requires !IsGap(LastMs(k, Flat(front + [seg])), EntryMs(k, e))
    ensures Flat(front + [Then(seg, e)]) == Then(Flat(front + [seg]), e)
    ensures Parted(k, front + [Then(seg, e)])
  {
    assert (front + [seg])[..|front|] == front;
    assert (front + [Then(seg, e)])[..|front|] == front;
    LastMsOfConcat(k, Flat(front), seg);
  }

  // ---- the loop ----

  // What the loop holds after reading `h`.
  ghost predicate Reads(k: Rules, h: History, s: Signals, visits: seq<Visit>, prevMs: int, reached: set<Phase>) {
    && s == SignalsOf(k, h)
    && visits == Summaries(k, Segments(k, h))
    && prevMs == LastMs(k, h)
    && reached == PhasesOf(k, h)
  }

  method AnalyzeSource(k: Rules, entries: seq<Entry>) returns (r: Assessment)
    ensures r == Assess(k, HistoryOf(entries))
  {
    var sig := new SourceSignals();
    var visits: seq<Visit>, prevMs, reached: set<Phase> := [], 0, {};
    for i := 0 to |entries|
      invariant fresh(sig)
      invariant Reads(k, HistoryOf(entries[..i]), sig.View(), visits, prevMs, reached)
    {
      var e := entries[i];
      HistoryGrows(entries, i);
      visits := Extend(k, HistoryOf(entries[..i]), e, visits, prevMs);
      if PhaseOf(k, e) != NoPhase {
        reached := reached + {PhaseOf(k, e)};
      } else {
        assert reached + {} == reached;
      }
      sig.Observe(k, e);
      if EntryMs(k, e) != 0 {
        prevMs := EntryMs(k, e);
      }
    }
    assert entries[..|entries|] == entries;
    return Assessment(Judge(sig.View()), Ordered(reached), visits, sig.pacing.minCmdGap, IsReturning(|visits|, sig.View()));
  }

  lemma HistoryGrows(entries: seq<Entry>, i: nat)
    requires i < |entries|
    ensures HistoryOf(entries[..i + 1]) == Then(HistoryOf(entries[..i]), entries[i])
  {
    assert entries[..i + 1][..i] == entries[..i];
  }

  // One entry's effect on the visits: a new one, or the last one changed in place.
  method Extend(k: Rules, ghost before: History, e: Entry, visits: seq<Visit>, prevMs: int) returns (visits': seq<Visit>)
    requires visits == Summaries(k, Segments(k, before)) && prevMs == LastMs(k, before)
    ensures visits' == Summaries(k, Segments(k, Then(before, e)))
  {
    visits' := visits;
    if |visits| == 0 || IsGap(prevMs, EntryMs(k, e)) {
      visits' := visits' + [Visit(e.time, "", 0, NoPhase, false)];
    }
    var cur := |visits'| - 1;
    visits' := visits'[cur := Touch(k, visits'[cur], e)];
    TouchIsSummary(k, Empty, e);
    if Segments(k, before) != [] {
      TouchIsSummary(k, Segments(k, before)[|visits| - 1], e);
    }
  }

  function Touch(k: Rules, v: Visit, e: Entry): Visit {
    v.(end := e.time,
       events := v.events + 1,
       phase := Deeper(v.phase, PhaseOf(k, e)),
       accepted := v.accepted || e.event == Command)
  }

  lemma TouchIsSummary(k: Rules, seg: History, e: Entry)
    ensures Touch(k, Summary(k, seg).(start := FirstTime(Then(seg, e))), e) == Summary(k, Then(seg, e))
  {}
}
