/** The lockstep co-simulation protocol: a client posts its machine state into shared memory, a
    server compares it with its own, and two compare-and-swap semaphores order the two. Every
    store, load and swap on shared memory is one atomic step; `Run` interleaves them at will. */
module Cosim {

  /** A posted state, in the order the client stores it: icnt, pc, gpr[0..31], mem_hash, cp0dbg[0..3]. */
  const WORDS := 39
  const PC := 1
  const GPR := 2
  const HASH := 34
  const NO_HASH := 0xffff_ffff_ffff_ffff

  type Snapshot = s: seq<int> | |s| == WORDS witness seq(WORDS, _ => 0)

  /** Where the client is inside a cosim_step call. */
  datatype ClientPc = Post(i: nat) | UpPosted | DownCompared | ReadDiverged | ClientStopped

  /** Where the server is. `bad` is the register verdict so far, `memBad` the memory verdict. */
  datatype ServerPc = DownPosted | ComparePc | CompareGpr(i: nat) | CompareHash | SetDiverged | UpCompared | ServerStopped

  datatype State = State(
    words: Snapshot, diverged: bool, posted: int, compared: int,
    client: ClientPc, clientStep: nat, clientReturns: seq<bool>,
    server: ServerPc, serverStep: nat, bad: bool, memBad: bool, serverReturns: seq<bool>)

  /** What each side executes: its machine state after its k-th instruction. */
  datatype Machines = Machines(dut: nat -> Snapshot, golden: nat -> Snapshot)

  function Init(words: Snapshot): State {
    State(words, false, 0, 0, Post(0), 0, [], DownPosted, 0, false, false, [])
  }

  /** One step of the client. A failed compare-and-swap spins: nothing changes. */
  function ClientStep(m: Machines, s: State): State {
    match s.client
    case Post(i) =>
      if i < WORDS then
        s.(words := s.words[i := m.dut(s.clientStep)[i]], client := if i + 1 < WORDS then Post(i + 1) else UpPosted)
      else s
    case UpPosted => if s.posted == 0 then s.(posted := 1, client := DownCompared) else s
    case DownCompared => if s.compared == 1 then s.(compared := 0, client := ReadDiverged) else s
    case ReadDiverged =>
      s.(clientReturns := s.clientReturns + [s.diverged], clientStep := s.clientStep + 1,
         client := if s.diverged then ClientStopped else Post(0))
    case ClientStopped => s
  }

  /** One step of the server. The register loop stops at the first difference. */
  function ServerStep(m: Machines, s: State): State {
    var own := m.golden(s.serverStep);
    match s.server
    case DownPosted => if s.posted == 1 then s.(posted := 0, server := ComparePc) else s
    case ComparePc => s.(bad := s.words[PC] != own[PC], server := CompareGpr(1))
    case CompareGpr(i) =>
      if i >= 32 then s.(server := CompareHash)
      else if Gpr(s.words, i) != Gpr(own, i) then s.(bad := true, server := CompareHash)
      else s.(server := CompareGpr(i + 1))
    case CompareHash =>
      var memBad := own[HASH] != NO_HASH && s.words[HASH] != own[HASH];
      s.(memBad := memBad, server := if s.bad || memBad then SetDiverged else UpCompared)
    case SetDiverged => s.(diverged := true, server := UpCompared)
    case UpCompared =>
      if s.compared == 0 then
        var r := s.bad || s.memBad;
        s.(compared := 1, serverReturns := s.serverReturns + [r], serverStep := s.serverStep + 1,
           server := if r then ServerStopped else DownPosted)
      else s
    case ServerStopped => s
  }

  /** A schedule names the side that moves: true for the client. */
  function Run(m: Machines, words: Snapshot, schedule: seq<bool>): State {
    if schedule == [] then Init(words)
    else
      var n := |schedule| - 1;
      var s := Run(m, words, schedule[..n]);
      if schedule[n] then ClientStep(m, s) else ServerStep(m, s)
  }

  // ---- what the protocol promises ----

  function Gpr(s: Snapshot, i: int): int
    requires 0 <= i < 32
  {
    s[GPR + i]
  }

  /** The program counter or a register other than the zero register differs. */
  predicate RegsDiffer(dut: Snapshot, golden: Snapshot) {
    dut[PC] != golden[PC] || exists i :: 1 <= i < 32 && Gpr(dut, i) != Gpr(golden, i)
  }

  /** What a comparison looks for: a difference in pc, in a register other than the zero register,
      or in the memory hash when the server has one. */
  predicate Differ(dut: Snapshot, golden: Snapshot) {
    RegsDiffer(dut, golden) || (golden[HASH] != NO_HASH && dut[HASH] != golden[HASH])
  }

  predicate DifferAt(m: Machines, k: nat) {
    Differ(m.dut(k), m.golden(k))
  }

  predicate Comparing(p: ServerPc) {
    p.ComparePc? || p.CompareGpr? || p.CompareHash? || p.SetDiverged? || p.UpCompared?
  }

  /** Step k of a side returned whether the states differ there, and nothing differed before. */
  predicate Verdicts(m: Machines, verdicts: seq<bool>) {
    forall k :: 0 <= k < |verdicts| ==> (verdicts[k] <==> DifferAt(m, k)) && (verdicts[k] ==> k == |verdicts| - 1)
  }

  /** The verdict of a comparison in progress, against the client's own k-th state. */
  predicate Verdict(m: Machines, s: State) {
    var dut, own := m.dut(s.serverStep), m.golden(s.serverStep);
    match s.server
    case CompareGpr(i) =>
      1 <= i <= 32 && (s.bad <==> dut[PC] != own[PC]) && forall j :: 1 <= j < i ==> Gpr(dut, j) == Gpr(own, j)
    case CompareHash => s.bad <==> RegsDiffer(dut, own)
    case SetDiverged => (s.bad || s.memBad) && Differ(dut, own)
    case UpCompared => (s.bad || s.memBad) == s.diverged && (s.diverged <==> Differ(dut, own))
    case _ => true
  }

  /** The two sides' joint position in the round of step k. */
  predicate Joint(m: Machines, s: State) {
    match s.client
    case Post(i) =>
      && i < WORDS && s.posted == 0 && s.compared == 0 && s.server == DownPosted && s.serverStep == s.clientStep
      && s.words[..i] == m.dut(s.clientStep)[..i] && !s.diverged
    case UpPosted =>
      && s.posted == 0 && s.compared == 0 && s.server == DownPosted && s.serverStep == s.clientStep
      && s.words == m.dut(s.clientStep) && !s.diverged
    case DownCompared =>
      && s.words == m.dut(s.clientStep)
      && if s.compared == 0 then
           && s.serverStep == s.clientStep && (s.server == DownPosted || Comparing(s.server))
           && s.posted == (if s.server == DownPosted then 1 else 0) && (s.diverged ==> s.server == UpCompared)
         else Answered(m, s) && s.compared == 1
    case ReadDiverged => Answered(m, s) && s.compared == 0
    case ClientStopped =>
      s.server == ServerStopped && s.posted == 0 && s.compared == 0 && s.serverStep == s.clientStep && s.diverged
      && s.clientStep > 0 && DifferAt(m, s.clientStep - 1)
  }

  /** The server has finished the step the client is still in. */
  predicate Answered(m: Machines, s: State) {
    && s.posted == 0 && s.serverStep == s.clientStep + 1
    && s.server == (if s.diverged then ServerStopped else DownPosted)
    && (s.diverged <==> DifferAt(m, s.clientStep))
  }

  predicate Inv(m: Machines, s: State) {
    && Joint(m, s) && Verdict(m, s)
    && |s.clientReturns| == s.clientStep && Verdicts(m, s.clientReturns)
    && |s.serverReturns| == s.serverStep && Verdicts(m, s.serverReturns)
    && (s.client != ClientStopped ==> forall k :: 0 <= k < s.clientStep ==> !s.clientReturns[k])
    && (s.server != ServerStopped ==> forall k :: 0 <= k < s.serverStep ==> !s.serverReturns[k])
  }

  lemma ClientKeepsInv(m: Machines, s: State)
    requires Inv(m, s)
    ensures Inv(m, ClientStep(m, s))
  {
    hide Differ, RegsDiffer, Gpr;
    var t := ClientStep(m, s);
    if s.client.Post? {
      var i, dut := s.client.i, m.dut(s.clientStep);
      assert t.words[..i + 1] == s.words[..i] + [dut[i]] == dut[..i + 1];
      if i + 1 == WORDS {
        assert t.words == t.words[..WORDS] && dut == dut[..WORDS];
      }
    }
  }

  lemma ServerComparesKeepsInv(m: Machines, s: State)
    requires Inv(m, s) && s.server != UpCompared
    ensures Inv(m, ServerStep(m, s))
  {
    hide Verdicts;
  }

  lemma ServerAnswers(m: Machines, s: State)
    requires Inv(m, s) && s.server == UpCompared
    ensures Inv(m, ServerStep(m, s))
  {
    hide Differ;
  }

  lemma {:induction false} RunKeepsInv(m: Machines, words: Snapshot, schedule: seq<bool>)
    ensures Inv(m, Run(m, words, schedule))
  {
    if schedule != [] {
      var n := |schedule| - 1;
      RunKeepsInv(m, words, schedule[..n]);
      var s := Run(m, words, schedule[..n]);
      if schedule[n] {
        ClientKeepsInv(m, s);
      } else if s.server == UpCompared {
        ServerAnswers(m, s);
      } else {
        ServerComparesKeepsInv(m, s);
      }
    }
  }

  // ---- main results, for every schedule ----

  /** While the server compares, shared memory holds the client's whole post of that very step:
      never a torn one, never an older one. */
  lemma ComparesThePost(m: Machines, words: Snapshot, schedule: seq<bool>)
    ensures var s := Run(m, words, schedule);
      Comparing(s.server) ==> s.words == m.dut(s.serverStep) && s.client == DownCompared && s.clientStep == s.serverStep
  {
    RunKeepsInv(m, words, schedule);
  }

  /** The server is at most one step ahead and never behind, and the sides return the same
      verdicts: true exactly at the first step whose states differ, where both stop. */
  lemma SidesAgree(m: Machines, words: Snapshot, schedule: seq<bool>)
    ensures var s := Run(m, words, schedule);
      && s.clientStep <= s.serverStep <= s.clientStep + 1
      && |s.clientReturns| == s.clientStep && |s.serverReturns| == s.serverStep
      && s.clientReturns == s.serverReturns[..s.clientStep]
      && (forall k :: 0 <= k < s.serverStep ==> (s.serverReturns[k] <==> DifferAt(m, k)))
      && (s.client == ClientStopped <==> s.clientStep > 0 && DifferAt(m, s.clientStep - 1))
      && (s.server == ServerStopped <==> s.serverStep > 0 && DifferAt(m, s.serverStep - 1))
  {
    hide Differ, Verdict, Run;
    RunKeepsInv(m, words, schedule);
    var s := Run(m, words, schedule);
    assert s.clientStep > 0 && s.client != ClientStopped ==> !s.clientReturns[s.clientStep - 1];
    assert s.serverStep > 0 && s.server != ServerStopped ==> !s.serverReturns[s.serverStep - 1];
  }

  /** The verdict by the words of the posted states: the pc in word 1, the registers but the zero one in
      words 3 to 33, and the memory hash in word 34 unless the server has none. */
  lemma VerdictWords(m: Machines, words: Snapshot, schedule: seq<bool>, k: nat)
    requires k < Run(m, words, schedule).serverStep
    ensures var s := Run(m, words, schedule);
      var (dut, own) := (m.dut(k), m.golden(k));
      && |s.serverReturns| == s.serverStep
      && (s.serverReturns[k] <==>
            dut[1] != own[1] || dut[3..34] != own[3..34] || (own[34] != 0xffff_ffff_ffff_ffff && dut[34] != own[34]))
  {
    hide Run;
    SidesAgree(m, words, schedule);
    var (dut, own) := (m.dut(k), m.golden(k));
    if dut[3..34] == own[3..34] {
      forall i | 1 <= i < 32 ensures Gpr(dut, i) == Gpr(own, i) {
        assert dut[3..34][i - 1] == own[3..34][i - 1];
      }
    }
    if !RegsDiffer(dut, own) {
      forall j | 0 <= j < 31 ensures dut[3..34][j] == own[3..34][j] {
        assert Gpr(dut, j + 1) == Gpr(own, j + 1);
      }
      assert dut[3..34] == own[3..34];
    }
  }

  lemma SomeMove(m: Machines, s: State)
    requires Inv(m, s)
    ensures ClientStep(m, s) != s || ServerStep(m, s) != s || (s.client == ClientStopped && s.server == ServerStopped)
  {
    hide Differ, Verdict, Verdicts;
  }

  /** Until both sides stop, one of them can move, and they stop together or not at all. */
  lemma NoDeadlock(m: Machines, words: Snapshot, schedule: seq<bool>)
    ensures var s := Run(m, words, schedule);
      && (ClientStep(m, s) != s || ServerStep(m, s) != s || (s.client == ClientStopped && s.server == ServerStopped))
      && (s.client == ClientStopped ==> s.server == ServerStopped)
  {
    hide Differ, Verdict, Verdicts, Run;
    RunKeepsInv(m, words, schedule);
    SomeMove(m, Run(m, words, schedule));
  }

  /** Moves of a whole call that are not spins, at most. */
  const CLIENT_MOVES := WORDS + 3
  const SERVER_MOVES := 40

  /** Moves a side has left in its current call, at most. */
  function ClientLeft(p: ClientPc): nat {
    match p
    case Post(i) => (if i < WORDS then WORDS - i else 0) + 3
    case UpPosted => 3
    case DownCompared => 2
    case ReadDiverged => 1
    case ClientStopped => 0
  }

  function ServerLeft(p: ServerPc): nat {
    match p
    case DownPosted => SERVER_MOVES
    case ComparePc => 39
    case CompareGpr(i) => (if i < 32 then 32 - i else 0) + 4
    case CompareHash => 3
    case SetDiverged => 2
    case UpCompared => 1
    case ServerStopped => 0
  }

  /** Every move that is not a spin finishes a call or brings its side closer to finishing one. */
  lemma MovesAdvance(m: Machines, s: State)
    requires Inv(m, s)
    ensures var c := ClientStep(m, s);
      c == s || c.clientStep == s.clientStep + 1 || (c.clientStep == s.clientStep && ClientLeft(c.client) < ClientLeft(s.client))
    ensures var t := ServerStep(m, s);
      t == s || t.serverStep == s.serverStep + 1 || (t.serverStep == s.serverStep && ServerLeft(t.server) < ServerLeft(s.server))
  {
    hide Differ, Verdicts;
  }

  // ---- fair schedules finish ----

  function Move(m: Machines, s: State, client: bool): State {
    if client then ClientStep(m, s) else ServerStep(m, s)
  }

  /** Both sides have returned from step k, or a difference has stopped them before. */
  predicate Done(s: State, k: nat) {
    (s.clientStep > k && s.serverStep > k) || (s.client == ClientStopped && s.server == ServerStopped)
  }

  /** Moves of both sides until step k is finished, at most. */
  function Work(s: State, k: nat): nat {
    (if s.clientStep <= k then ClientLeft(s.client) + CLIENT_MOVES * (k - s.clientStep) else 0)
    + if s.serverStep <= k then ServerLeft(s.server) + SERVER_MOVES * (k - s.serverStep) else 0
  }

  /** A move that is not a spin brings the end of step k nearer. */
  lemma MovesWork(m: Machines, s: State, k: nat, client: bool)
    requires Inv(m, s)
    ensures var t := Move(m, s, client);
      && (Done(s, k) ==> Done(t, k))
      && (!Done(s, k) ==> t == s || Done(t, k) || Work(t, k) < Work(s, k))
  {
    hide Inv, ClientLeft, ServerLeft, ClientStep, ServerStep;
    SidesLeft(m, s);
    MovesAdvance(m, s);
    if client {
      ClientOnly(m, s);
    } else {
      ServerOnly(m, s);
    }
  }

  lemma SidesLeft(m: Machines, s: State)
    requires Inv(m, s)
    ensures s.clientStep <= s.serverStep <= s.clientStep + 1
    ensures s.serverStep > s.clientStep ==> ServerStep(m, s) == s
    ensures s.client == ClientStopped ==> s.server == ServerStopped
  {
    hide Differ, Verdicts, Verdict, RegsDiffer;
  }

  lemma ClientOnly(m: Machines, s: State)
    ensures var t := ClientStep(m, s);
      && t.server == s.server && t.serverStep == s.serverStep && s.clientStep <= t.clientStep <= s.clientStep + 1
      && (s.client == ClientStopped ==> t == s) && (t.clientStep > s.clientStep ==> ClientLeft(t.client) <= CLIENT_MOVES)
      && (s.client != ClientStopped ==> ClientLeft(s.client) > 0)
  {
  }

  lemma ServerOnly(m: Machines, s: State)
    ensures var t := ServerStep(m, s);
      && t.client == s.client && t.clientStep == s.clientStep && s.serverStep <= t.serverStep <= s.serverStep + 1
      && (s.server == ServerStopped ==> t == s) && (t.serverStep > s.serverStep ==> ServerLeft(t.server) <= SERVER_MOVES)
      && (s.server != ServerStopped ==> ServerLeft(s.server) > 0)
  {
    hide Gpr;
  }

  /** After a stretch of the schedule step k is done or nearer, or nobody who was scheduled could move. */
  lemma {:induction false} Stretch(m: Machines, words: Snapshot, before: seq<bool>, stretch: seq<bool>, k: nat)
    ensures Done(Run(m, words, before), k) ==> Done(Run(m, words, before + stretch), k)
    ensures var (s, t) := (Run(m, words, before), Run(m, words, before + stretch));
      || Done(t, k) || Work(t, k) < Work(s, k)
      || (t == s && forall client :: client in stretch ==> Move(m, s, client) == s)
    decreases |stretch|
  {
    hide Inv, Work, Done, Move;
    if stretch == [] {
      assert before + stretch == before;
    } else {
      var (front, last) := (stretch[..|stretch| - 1], stretch[|stretch| - 1]);
      Stretch(m, words, before, front, k);
      assert (before + stretch)[..|before + stretch| - 1] == before + front;
      RunKeepsInv(m, words, before + front);
      RunMoves(m, words, before + front, last);
      assert before + front + [last] == before + stretch;
      MovesWork(m, Run(m, words, before + front), k, last);
      assert stretch == front + [last];
    }
  }

  lemma RunMoves(m: Machines, words: Snapshot, before: seq<bool>, client: bool)
    ensures Run(m, words, before + [client]) == Move(m, Run(m, words, before), client)
  {
    assert (before + [client])[..|before|] == before;
  }

  function Flatten(stretches: seq<seq<bool>>): seq<bool> {
    if stretches == [] then [] else Flatten(stretches[..|stretches| - 1]) + stretches[|stretches| - 1]
  }

  /** Progress: in any schedule of enough stretches in each of which both sides are scheduled, both
      return from step k, unless a difference stops them before. */
  lemma {:induction false} FairFinishes(m: Machines, words: Snapshot, stretches: seq<seq<bool>>, k: nat)
    requires forall s :: s in stretches ==> true in s && false in s
    ensures var s := Run(m, words, Flatten(stretches));
      Done(s, k) || Work(s, k) + |stretches| <= (CLIENT_MOVES + SERVER_MOVES) * (k + 1)
    ensures |stretches| > (CLIENT_MOVES + SERVER_MOVES) * (k + 1) ==> Done(Run(m, words, Flatten(stretches)), k)
    decreases |stretches|
  {
    hide Inv, Move, Done, Work, Init;
    InitWork(words, k);
    if stretches != [] {
      var (front, last) := (stretches[..|stretches| - 1], stretches[|stretches| - 1]);
      var s := Run(m, words, Flatten(front));
      FairFinishes(m, words, front, k);
      RunKeepsInv(m, words, Flatten(front));
      Stretch(m, words, Flatten(front), last, k);
      BothSpin(m, s, k);
    }
  }

  lemma InitWork(words: Snapshot, k: nat)
    ensures Work(Init(words), k) == (CLIENT_MOVES + SERVER_MOVES) * (k + 1)
  {
  }

  lemma BothSpin(m: Machines, s: State, k: nat)
    requires Inv(m, s)
    ensures Move(m, s, true) == s && Move(m, s, false) == s ==> Done(s, k)
  {
    hide Inv;
    SomeMove(m, s);
  }
}
