// The verdict and the phases as functions of what a source did, without scores and flags;
// and what the analysis reads of a timestamp.
module Verdicts {
  import opened Analyze

  // ---- fragments of text ----

  predicate OccursAt(s: string, sub: string, i: nat) {
    i + |sub| <= |s| && s[i..i + |sub|] == sub
  }

  lemma StartsWith(s: string, sub: string)
    ensures OccursAt(s, sub, 0) <==> sub <= s
  {
    if |sub| <= |s| {
      assert s[0..|sub|] == s[..|sub|];
    }
  }

  lemma OccursLater(s: string, sub: string, i: nat)
    requires s != ""
    ensures OccursAt(s[1..], sub, i) <==> OccursAt(s, sub, i + 1)
  {
    if i + 1 + |sub| <= |s| {
      assert s[1..][i..i + |sub|] == s[i + 1..i + 1 + |sub|];
    }
  }

  // A text contains another exactly when that stands somewhere in it.
  lemma {:induction false} ContainsExactly(s: string, sub: string)
    ensures Contains(s, sub) <==> exists i: nat :: OccursAt(s, sub, i)
  {
    StartsWith(s, sub);
    if s != "" {
      ContainsExactly(s[1..], sub);
      if i: nat :| OccursAt(s[1..], sub, i) {
        OccursLater(s, sub, i);
      }
      if i: nat :| OccursAt(s, sub, i) {
        if i > 0 {
          OccursLater(s, sub, i - 1);
        }
      }
    }
  }

  // ---- the verdict ----

  predicate Burst(k: Rules, h: History) {
    exists g :: g in Gaps(CommandTimes(k, h)) && g < 400
  }

  predicate Pause(k: Rules, h: History) {
    exists g :: g in Gaps(CommandTimes(k, h)) && g > 1500
  }

  predicate Strong(k: Rules, h: History) {
    AnyCommand(h, k.isProbe) || AnyCredential(h, k.isSentinel)
  }

  predicate ReadsAsLoader(k: Rules, h: History) {
    || AnyCommand(h, k.isLoader)
    || (Count(h, ExecAttempt) > 0 && (Strong(k, h) || Burst(k, h)))
  }

  predicate ReadsAsBot(k: Rules, h: History) {
    Strong(k, h) || (Burst(k, h) && Count(h, DownloadAttempt) > 0)
  }

  predicate Sprays(h: History) {
    Count(h, Command) == 0 && Count(h, Credential) >= 4
  }

  predicate OnlyLooked(h: History) {
    && Count(h, Command) == 0 && Count(h, Credential) == 0
    && Count(h, ExecAttempt) == 0 && Count(h, DownloadAttempt) == 0
  }

  predicate TypesLikeAPerson(k: Rules, h: History) {
    && Count(h, Command) >= 3 && Pause(k, h) && !Burst(k, h)
    && !AnyCommand(h, k.isLoader) && !Strong(k, h)
    && Count(h, ExecAttempt) == 0 && Count(h, DownloadAttempt) == 0
  }

  function One(b: bool): nat {
    if b then 1 else 0
  }

  function Evidence(k: Rules, h: History): nat {
    3 * (One(AnyCommand(h, k.isLoader)) + One(AnyCommand(h, k.isProbe)) + One(AnyCredential(h, k.isSentinel)))
    + 2 * One(Burst(k, h)) + One(Count(h, ExecAttempt) > 0) + One(Count(h, DownloadAttempt) > 0)
  }

  lemma {:induction false} CommandsNeedOne(h: History, p: string -> bool)
    ensures AnyCommand(h, p) ==> Count(h, Command) > 0
  {
    if h.Then? {
      CommandsNeedOne(h.before, p);
    }
  }

  lemma {:induction false} CredentialsNeedOne(h: History, p: (string, string) -> bool)
    ensures AnyCredential(h, p) ==> Count(h, Credential) > 0
  {
    if h.Then? {
      CredentialsNeedOne(h.before, p);
    }
  }

  lemma {:induction false} TimesNeedCommands(k: Rules, h: History)
    ensures |CommandTimes(k, h)| <= Count(h, Command)
  {
    if h.Then? {
      TimesNeedCommands(k, h.before);
    }
  }

  // What the flags, the pacing and the score say.
  lemma FlagsSay(k: Rules, h: History)
    ensures var s := SignalsOf(k, h);
            && s.counts.commands == Count(h, Command) && s.counts.credentials == Count(h, Credential)
            && (s.marks.loaderCmd <==> AnyCommand(h, k.isLoader))
            && (s.marks.probeCmd <==> AnyCommand(h, k.isProbe))
            && (s.marks.sentinelCred <==> AnyCredential(h, k.isSentinel))
            && (s.marks.hasExec <==> Count(h, ExecAttempt) > 0)
            && (s.marks.hasDownload <==> Count(h, DownloadAttempt) > 0)
            && (s.marks.scanned <==> Count(h, PortScan) > 0)
  {
    SignalsMean(k, h);
  }

  lemma PacingSays(k: Rules, h: History)
    ensures var p := SignalsOf(k, h).pacing;
            (p.fastBurst <==> Burst(k, h)) && (p.maxCmdGap > 1500 <==> Pause(k, h))
  {
    SignalsMean(k, h);
    MeasuresSay(SignalsOf(k, h).pacing, Gaps(CommandTimes(k, h)));
  }

  lemma MeasuresSay(p: Pacing, gaps: seq<int>)
    requires Measures(p, gaps)
    ensures p.fastBurst <==> exists g :: g in gaps && g < 400
    ensures p.maxCmdGap > 1500 <==> exists g :: g in gaps && g > 1500
  {
  }

  lemma SignalsSay(k: Rules, h: History)
    ensures BotScore(SignalsOf(k, h)) == Evidence(k, h)
  {
    FlagsSay(k, h);
    PacingSays(k, h);
  }

  lemma QuietWithoutCommands(k: Rules, h: History)
    ensures Count(h, Command) == 0 ==>
      !AnyCommand(h, k.isLoader) && !AnyCommand(h, k.isProbe) && !Burst(k, h) && !Pause(k, h)
    ensures Count(h, Credential) == 0 ==> !AnyCredential(h, k.isSentinel)
  {
    CommandsNeedOne(h, k.isLoader);
    CommandsNeedOne(h, k.isProbe);
    CredentialsNeedOne(h, k.isSentinel);
    TimesNeedCommands(k, h);
    if Count(h, Command) == 0 {
      assert Gaps(CommandTimes(k, h)) == [];
    }
  }

  // The kind as the flags and the score decide it.
  lemma KindOfSignals(s: Signals)
    ensures var kind, bot := Judge(s).kind, BotScore(s);
            var loads := s.marks.loaderCmd || (s.marks.hasExec && bot >= 3);
            var quiet := s.counts.commands == 0 && s.counts.credentials == 0 && !s.marks.hasExec && !s.marks.hasDownload;
            var sprays := s.counts.commands == 0 && s.counts.credentials >= 4;
            && (kind.Loader? <==> loads)
            && (kind.Bruteforce? <==> !loads && (bot >= 3 || sprays))
            && (kind.Scanner? <==> !loads && bot < 3 && quiet)
            && (kind.Human? <==> bot == 0 && HumanPacing(s))
  {
  }

  // The verdict on every history: which kind it is, exactly when.
  lemma VerdictTable(k: Rules, h: History)
    ensures var v := Judge(SignalsOf(k, h));
            && (v.kind.Loader? <==> ReadsAsLoader(k, h))
            && (v.kind.Bruteforce? <==> !ReadsAsLoader(k, h) && (ReadsAsBot(k, h) || Sprays(h)))
            && (v.kind.Scanner? <==> OnlyLooked(h))
            && (v.kind.Human? <==> TypesLikeAPerson(k, h))
  {
    KindOfSignals(SignalsOf(k, h));
    SignalsSay(k, h);
    FlagsSay(k, h);
    PacingSays(k, h);
    QuietWithoutCommands(k, h);
  }

  function Least(a: int, b: int): int {
    if a < b then a else b
  }

  lemma ConfidenceTable(k: Rules, h: History)
    ensures var v := Judge(SignalsOf(k, h));
            match v.kind
            case Loader => v.confidence == Least(99, 70 + 8 * Evidence(k, h))
            case Bruteforce =>
              v.confidence == if Evidence(k, h) >= 3 then Least(99, 70 + 6 * Evidence(k, h))
                              else Least(90, 45 + 3 * Count(h, Credential))
            case Scanner => v.confidence == 75
            case Human => v.confidence == 50
            case Unknown => v.confidence == 0
  {
    SignalsSay(k, h);
    FlagsSay(k, h);
  }

  // Why a source is held for what it is: its own evidence, and one closing reason for the
  // kinds that need one.
  predicate IsReason(k: Rules, h: History, r: Reason) {
    match r
    case LoaderCommands => AnyCommand(h, k.isLoader)
    case SentinelCredential => AnyCredential(h, k.isSentinel)
    case BusyboxProbe => AnyCommand(h, k.isProbe)
    case FastCommands => Burst(k, h)
    case TriedExec => Count(h, ExecAttempt) > 0
    case TriedDownload => Count(h, DownloadAttempt) > 0
    case Sprayed => !ReadsAsLoader(k, h) && !ReadsAsBot(k, h) && Sprays(h)
    case BareScan => OnlyLooked(h) && Count(h, PortScan) > 0
    case Probed => OnlyLooked(h) && Count(h, PortScan) == 0
    case HumanPace => TypesLikeAPerson(k, h)
  }

  // Without the evidence of a loader, a score of three means a bot.
  lemma ScoreMeans(k: Rules, h: History)
    requires !ReadsAsLoader(k, h)
    ensures Evidence(k, h) >= 3 <==> ReadsAsBot(k, h)
  {
  }

  lemma NotedReasons(k: Rules, h: History, r: Reason)
    ensures r in BotReasons(SignalsOf(k, h)) <==>
      IsReason(k, h, r) && r !in {Sprayed, BareScan, Probed, HumanPace}
  {
    FlagsSay(k, h);
    PacingSays(k, h);
    NotesAre(SignalsOf(k, h), r);
  }

  lemma SprayIsClosing(k: Rules, h: History, v: Verdict)
    requires v.kind.Bruteforce? <==> !ReadsAsLoader(k, h) && (ReadsAsBot(k, h) || Sprays(h))
    ensures IsReason(k, h, Sprayed) <==> v.kind.Bruteforce? && Evidence(k, h) < 3
  {
    if !ReadsAsLoader(k, h) {
      ScoreMeans(k, h);
    }
  }

  lemma OthersAreClosing(k: Rules, h: History, v: Verdict)
    requires v.kind.Scanner? <==> OnlyLooked(h)
    requires v.kind.Human? <==> TypesLikeAPerson(k, h)
    ensures IsReason(k, h, BareScan) <==> v.kind.Scanner? && Count(h, PortScan) > 0
    ensures IsReason(k, h, Probed) <==> v.kind.Scanner? && Count(h, PortScan) == 0
    ensures IsReason(k, h, HumanPace) <==> v.kind.Human?
  {
  }

  // The reasons listed are exactly those.
  lemma ReasonsTable(k: Rules, h: History, r: Reason)
    ensures r in Judge(SignalsOf(k, h)).reasons <==> IsReason(k, h, r)
  {
    NotedReasons(k, h, r);
    VerdictTable(k, h);
    SprayIsClosing(k, h, Judge(SignalsOf(k, h)));
    OthersAreClosing(k, h, Judge(SignalsOf(k, h)));
    SignalsSay(k, h);
    ScannedMeans(k, h);
    ClosingReason(SignalsOf(k, h), r);
  }

  predicate IsNoted(s: Signals, r: Reason) {
    match r
    case LoaderCommands => s.marks.loaderCmd
    case SentinelCredential => s.marks.sentinelCred
    case BusyboxProbe => s.marks.probeCmd
    case FastCommands => s.pacing.fastBurst
    case TriedExec => s.marks.hasExec
    case TriedDownload => s.marks.hasDownload
    case _ => false
  }

  lemma InConcat<T>(a: seq<T>, b: seq<T>, x: T)
    ensures x in a + b <==> x in a || x in b
  {
  }

  lemma NotesAre(s: Signals, r: Reason)
    ensures r in BotReasons(s) <==> IsNoted(s, r)
  {
    var a, b, c := Note(s.marks.loaderCmd, LoaderCommands), Note(s.marks.sentinelCred, SentinelCredential),
      Note(s.marks.probeCmd, BusyboxProbe);
    var d, e, f := Note(s.pacing.fastBurst, FastCommands), Note(s.marks.hasExec, TriedExec),
      Note(s.marks.hasDownload, TriedDownload);
    InConcat(a, b, r);
    InConcat(a + b, c, r);
    InConcat(a + b + c, d, r);
    InConcat(a + b + c + d, e, r);
    InConcat(a + b + c + d + e, f, r);
  }

  // The reason that comes behind the notes, if any.
  lemma ClosingReason(s: Signals, r: Reason)
    ensures var v, bot := Judge(s), BotScore(s);
            r in v.reasons <==>
              || r in BotReasons(s)
              || (r.Sprayed? && v.kind.Bruteforce? && bot < 3)
              || (r.BareScan? && v.kind.Scanner? && s.marks.scanned)
              || (r.Probed? && v.kind.Scanner? && !s.marks.scanned)
              || (r.HumanPace? && v.kind.Human?)
  {
    InConcat(BotReasons(s), [Sprayed], r);
    InConcat(BotReasons(s), [if s.marks.scanned then BareScan else Probed], r);
    InConcat(BotReasons(s), [HumanPace], r);
  }

  // ---- phases ----

  // The phases a history reached, each by its events, in the order of an attack.
  lemma {:induction false} PhasesReached(k: Rules, h: History)
    ensures var reached := PhasesOf(k, h);
            && (Recon in reached <==>
                  Count(h, PortScan) + Count(h, HttpRequest) + Count(h, HttpPost) + Count(h, TlsHello) > 0)
            && (Brute in reached <==> Count(h, Credential) > 0)
            && (Access in reached <==> AnyCommand(h, c => !k.isLoader(c)))
            && (Exploit in reached <==>
                  || AnyCommand(h, k.isLoader)
                  || Count(h, ExecAttempt) + Count(h, DownloadAttempt) + Count(h, Dropper) + Count(h, Honeytoken) > 0)
            && NoPhase !in reached
  {
    if h.Then? {
      PhasesReached(k, h.before);
    }
  }

  function If(b: bool, p: Phase): seq<Phase> {
    if b then [p] else []
  }

  predicate Ascends(phases: seq<Phase>) {
    forall i, j :: 0 <= i < j < |phases| ==> PhaseRank(phases[i]) < PhaseRank(phases[j])
  }

  predicate Below(phases: seq<Phase>, rank: nat) {
    forall i :: 0 <= i < |phases| ==> PhaseRank(phases[i]) < rank
  }

  lemma RanksJoin(a: seq<Phase>, b: bool, p: Phase)
    requires Ascends(a) && Below(a, PhaseRank(p))
    ensures Ascends(a + If(b, p)) && Below(a + If(b, p), PhaseRank(p) + 1)
  {
  }

  lemma OrderedAscends(reached: set<Phase>)
    ensures Ascends(Ordered(reached))
  {
    var a, b := If(Recon in reached, Recon), If(Brute in reached, Brute);
    var c := If(Access in reached, Access);
    RanksJoin(a, Brute in reached, Brute);
    RanksJoin(a + b, Access in reached, Access);
    RanksJoin(a + b + c, Exploit in reached, Exploit);
  }

  lemma OrderedHolds(reached: set<Phase>, p: Phase)
    requires NoPhase !in reached
    ensures p in Ordered(reached) <==> p in reached
  {
    var a, b := If(Recon in reached, Recon), If(Brute in reached, Brute);
    var c, d := If(Access in reached, Access), If(Exploit in reached, Exploit);
    InConcat(a, b, p);
    InConcat(a + b, c, p);
    InConcat(a + b + c, d, p);
  }

  lemma PhasesInOrder(k: Rules, h: History)
    ensures var phases := Assess(k, h).phases;
            (forall p :: p in phases <==> p in PhasesOf(k, h)) && Ascends(phases)
  {
    PhasesReached(k, h);
    OrderedAscends(PhasesOf(k, h));
    forall p ensures p in Ordered(PhasesOf(k, h)) <==> p in PhasesOf(k, h) {
      OrderedHolds(PhasesOf(k, h), p);
    }
  }

  // ---- visits ----

  function VisitEvents(visits: seq<Visit>): nat {
    if visits == [] then 0 else VisitEvents(visits[..|visits| - 1]) + visits[|visits| - 1].events
  }

  lemma {:induction false} LengthOfConcat(a: History, b: History)
    ensures Length(Concat(a, b)) == Length(a) + Length(b)
  {
    if b.Then? {
      LengthOfConcat(a, b.before);
    }
  }

  lemma {:induction false} SegmentsAddUp(k: Rules, segs: seq<History>)
    ensures VisitEvents(Summaries(k, segs)) == Length(Flat(segs))
  {
    if segs != [] {
      var front := segs[..|segs| - 1];
      SegmentsAddUp(k, front);
      assert Summaries(k, segs)[..|segs| - 1] == Summaries(k, front);
      LengthOfConcat(Flat(front), segs[|segs| - 1]);
    }
  }

  // Every event is in exactly one visit.
  lemma VisitsAddUp(k: Rules, h: History)
    ensures VisitEvents(Assess(k, h).visits) == Length(h)
  {
    VisitsPartition(k, h);
    SegmentsAddUp(k, Segments(k, h));
  }

  // A visit runs from its first event to its last, counts them all, was let in if a command
  // was run, and got as far as the furthest of its phases.
  lemma SummaryMeans(k: Rules, seg: History)
    requires seg.Then?
    ensures var v := Summary(k, seg);
            && v.start == First(seg).time && v.end == seg.last.time && v.events == Length(seg)
            && (v.accepted <==> AnyCommand(seg, c => true))
            && (v.phase == NoPhase <==> PhasesOf(k, seg) == {})
            && (v.phase != NoPhase ==> v.phase in PhasesOf(k, seg))
            && (forall p :: p in PhasesOf(k, seg) ==> PhaseRank(p) <= PhaseRank(v.phase))
  {
    FirstTimeIs(seg);
    AnyIsCounted(seg);
    DeepestIs(k, seg);
  }

  lemma {:induction false} FirstTimeIs(seg: History)
    requires seg.Then?
    ensures FirstTime(seg) == First(seg).time
  {
    if seg.before.Then? {
      FirstTimeIs(seg.before);
    }
  }

  lemma {:induction false} AnyIsCounted(seg: History)
    ensures AnyCommand(seg, c => true) <==> Count(seg, Command) > 0
  {
    if seg.Then? {
      AnyIsCounted(seg.before);
    }
  }

  lemma {:induction false} DeepestIs(k: Rules, seg: History)
    ensures Deepest(k, seg) == NoPhase <==> PhasesOf(k, seg) == {}
    ensures Deepest(k, seg) != NoPhase ==> Deepest(k, seg) in PhasesOf(k, seg)
    ensures forall p :: p in PhasesOf(k, seg) ==> PhaseRank(p) <= PhaseRank(Deepest(k, seg))
  {
    if seg.Then? {
      DeepestIs(k, seg.before);
      var p := PhaseOf(k, seg.last);
      assert p != NoPhase ==> PhaseRank(p) > 0 && p in PhasesOf(k, seg);
    }
  }

  // More than half an hour passed somewhere between two events that have a timestamp.
  predicate WentAway(k: Rules, h: History) {
    h.Then? && (
      || WentAway(k, h.before)
      || (LastMs(k, h.before) != 0 && EntryMs(k, h.last) != 0 && EntryMs(k, h.last) - LastMs(k, h.before) > 1800000))
  }

  lemma {:induction false} VisitsAreAbsences(k: Rules, h: History)
    ensures |Segments(k, h)| >= 2 <==> WentAway(k, h)
  {
    if h.Then? {
      VisitsAreAbsences(k, h.before);
    }
  }

  // A source returned exactly if it went away in between, or scanned a port and then spoke
  // to the service.
  lemma ReturningMeans(k: Rules, h: History)
    ensures Assess(k, h).returning <==>
      || WentAway(k, h)
      || (Count(h, PortScan) > 0 && (Count(h, Command) > 0 || Count(h, SessionStart) > 0))
  {
    VisitsAreAbsences(k, h);
    SignalsMean(k, h);
  }

  // ---- timestamps ----

  // The history with each missing stamp filled in from the time's text.
  function Stamped(k: Rules, h: History): History {
    match h
    case Empty => Empty
    case Then(before, e) => Then(Stamped(k, before), StampedEntry(k, e))
  }

  function StampedEntry(k: Rules, e: Entry): Entry {
    if e.epochMs != 0 then e else e.(epochMs := k.millis(e.time))
  }

  function StampedAll(k: Rules, segs: seq<History>): seq<History> {
    seq(|segs|, i requires 0 <= i < |segs| => Stamped(k, segs[i]))
  }

  lemma {:induction false} StampsKeepSignals(k: Rules, h: History)
    ensures SignalsOf(k, Stamped(k, h)) == SignalsOf(k, h)
    ensures LastMs(k, Stamped(k, h)) == LastMs(k, h)
    ensures PhasesOf(k, Stamped(k, h)) == PhasesOf(k, h)
  {
    if h.Then? {
      StampsKeepSignals(k, h.before);
    }
  }

  lemma {:induction false} StampsKeepSegments(k: Rules, h: History)
    ensures Segments(k, Stamped(k, h)) == StampedAll(k, Segments(k, h))
  {
    if h.Then? {
      StampsKeepSegments(k, h.before);
      StampsKeepSignals(k, h.before);
      var segs, e := Segments(k, h.before), h.last;
      if h.before == Empty || IsGap(LastMs(k, h.before), EntryMs(k, e)) {
        StampedNew(k, segs, e);
      } else {
        StampedLonger(k, segs, e);
      }
    }
  }

  lemma StampedNew(k: Rules, segs: seq<History>, e: Entry)
    ensures StampedAll(k, segs + [Then(Empty, e)]) == StampedAll(k, segs) + [Then(Empty, StampedEntry(k, e))]
  {
    assert Stamped(k, Then(Empty, e)) == Then(Empty, StampedEntry(k, e));
  }

  lemma StampedLonger(k: Rules, segs: seq<History>, e: Entry)
    requires segs != []
    ensures var n, all := |segs| - 1, StampedAll(k, segs);
            StampedAll(k, segs[..n] + [Then(segs[n], e)]) == all[..n] + [Then(all[n], StampedEntry(k, e))]
  {
  }

  lemma {:induction false} StampsKeepSummary(k: Rules, seg: History)
    ensures Summary(k, Stamped(k, seg)) == Summary(k, seg)
  {
    if seg.Then? {
      StampsKeepSummary(k, seg.before);
    }
  }

  // A log without millisecond stamps is read as one with them filled in from its times.
  lemma StampsFillIn(k: Rules, h: History)
    ensures Assess(k, Stamped(k, h)) == Assess(k, h)
  {
    StampsKeepSignals(k, h);
    StampsKeepSegments(k, h);
    var segs := Segments(k, h);
    forall i | 0 <= i < |segs| ensures Summary(k, Stamped(k, segs[i])) == Summary(k, segs[i]) {
      StampsKeepSummary(k, segs[i]);
    }
    assert Summaries(k, StampedAll(k, segs)) == Summaries(k, segs);
  }

  predicate AllStamped(h: History) {
    h.Then? ==> AllStamped(h.before) && h.last.epochMs != 0
  }

  // ... and where a stamp is there, the text of the time plays no part.
  lemma {:induction false} StampsSuffice(k: Rules, millis: string -> int, h: History)
    requires AllStamped(h)
    ensures SignalsOf(k.(millis := millis), h) == SignalsOf(k, h)
    ensures Segments(k.(millis := millis), h) == Segments(k, h)
    ensures LastMs(k.(millis := millis), h) == LastMs(k, h)
  {
    if h.Then? {
      StampsSuffice(k, millis, h.before);
    }
  }
}
