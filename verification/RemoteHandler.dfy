/** The connection loop of one remote (`RemoteHandler`). Everything the loop waits for or asks
    is answered by a script chosen by the environment; each answer may also bring a request to
    stop. When the script is used up the environment asks to stop, so that every run of the
    program has its finite prefixes among the runs of the model. */
module RemoteHandler {

  const CHANNEL_RETRY_WAIT_TIME := 30
  const DUPLEX_MAX_FAILURES := 10
  const DUPLEX_WAIT_PING_TIME := 1
  const CONNECTED_PING_TIME := 20
  const V2_CHANNEL_RETRY_WAIT_TIME := 10

  datatype RemoteStatus = OFFLINE | REGISTRATION | INIT_CONNECTING | UNREACHABLE | AWAITING_DUPLEX | ONLINE

  datatype Choice = Choice(answer: bool, stop: bool)

  /** A status the handler wrote: in which loop call, and whether the edit listener then made
      the transfer manager fail all transfers of the remote. */
  datatype Write = Write(call: nat, status: RemoteStatus, failAll: bool)

  // ----- what a loop call may write ----------------------------------------------------

  function WriteOf(call: nat, status: RemoteStatus, managed: bool): Write {
    Write(call, status, managed && status != ONLINE)
  }

  /** n rounds of waiting for the duplex connection, then ONLINE if the last one succeeded. */
  function Waiting(call: nat, n: nat, managed: bool): (writes: seq<Write>)
    ensures |writes| == n
    ensures forall i :: 0 <= i < n ==> writes[i] == WriteOf(call, AWAITING_DUPLEX, managed)
  {
    seq(n, i => WriteOf(call, AWAITING_DUPLEX, managed))
  }

  /** The writes of one loop call. */
  datatype Attempt = Unconnected | Connection(rounds: nat, online: bool) | Refused {
    predicate Possible(api: int) {
      match this
      case Unconnected => true
      case Connection(rounds, online) =>
        && (online ==> rounds > 0)
        && rounds <= (if api == 1 then DUPLEX_MAX_FAILURES + 1 else 1)
        && (api == 2 ==> rounds == 1 && online)
      case Refused => api == 2
    }

    function Writes(call: nat, managed: bool): seq<Write> {
      match this
      case Unconnected => [WriteOf(call, UNREACHABLE, managed)]
      case Connection(rounds, online) =>
        Waiting(call, rounds, managed) + if online then [WriteOf(call, ONLINE, managed)] else []
      case Refused => [WriteOf(call, AWAITING_DUPLEX, managed), WriteOf(call, UNREACHABLE, managed)]
    }
  }

  lemma ConnectionGrows(call: nat, rounds: nat, managed: bool)
    ensures Connection(0, false).Writes(call, managed) == []
    ensures Connection(rounds + 1, false).Writes(call, managed)
         == Connection(rounds, false).Writes(call, managed) + [WriteOf(call, AWAITING_DUPLEX, managed)]
    ensures Connection(rounds, true).Writes(call, managed)
         == Connection(rounds, false).Writes(call, managed) + [WriteOf(call, ONLINE, managed)]
  {
    assert Waiting(call, rounds + 1, managed) == Waiting(call, rounds, managed) + [WriteOf(call, AWAITING_DUPLEX, managed)];
  }

  lemma SingleWrites(call: nat, managed: bool)
    ensures Unconnected.Writes(call, managed) == [WriteOf(call, UNREACHABLE, managed)]
    ensures Refused.Writes(call, managed) == [WriteOf(call, AWAITING_DUPLEX, managed)] + [WriteOf(call, UNREACHABLE, managed)]
    ensures Connection(1, true).Writes(call, managed) == [WriteOf(call, AWAITING_DUPLEX, managed)] + [WriteOf(call, ONLINE, managed)]
  {
  }

  function AllWrites(attempts: seq<Attempt>, managed: bool): seq<Write> {
    if attempts == [] then []
    else AllWrites(attempts[..|attempts| - 1], managed) + attempts[|attempts| - 1].Writes(|attempts|, managed)
  }

  // ----- what every run writes ---------------------------------------------------------

  function Count(writes: seq<Write>, call: nat, status: RemoteStatus): nat {
    if writes == [] then 0
    else Count(writes[..|writes| - 1], call, status) +
         (if writes[|writes| - 1].call == call && writes[|writes| - 1].status == status then 1 else 0)
  }

  lemma {:induction false} CountJoin(a: seq<Write>, b: seq<Write>, call: nat, status: RemoteStatus)
    ensures Count(a + b, call, status) == Count(a, call, status) + Count(b, call, status)
  {
    if b == [] {
      assert a + b == a;
    } else {
      assert (a + b)[..|a + b| - 1] == a + b[..|b| - 1];
      CountJoin(a, b[..|b| - 1], call, status);
    }
  }

  lemma {:induction false} CountWaiting(call: nat, n: nat, managed: bool, c: nat, status: RemoteStatus)
    ensures Count(Waiting(call, n, managed), c, status) == if c == call && status == AWAITING_DUPLEX then n else 0
  {
    if n > 0 {
      CountWaiting(call, n - 1, managed, c, status);
      assert Waiting(call, n, managed)[..n - 1] == Waiting(call, n - 1, managed);
    }
  }

  lemma CountOne(write: Write, call: nat, status: RemoteStatus)
    ensures Count([write], call, status) == if write.call == call && write.status == status then 1 else 0
  {
    assert [write][..0] == [];
  }

  lemma AttemptCounts(attempt: Attempt, api: int, call: nat, managed: bool, c: nat)
    requires attempt.Possible(api)
    ensures var w := attempt.Writes(call, managed);
      && Count(w, c, AWAITING_DUPLEX) <= (if c != call then 0 else if api == 1 then 11 else 1)
      && Count(w, c, ONLINE) <= (if c != call then 0 else 1)
  {
    match attempt {
      case Unconnected =>
        CountOne(WriteOf(call, UNREACHABLE, managed), c, AWAITING_DUPLEX);
        CountOne(WriteOf(call, UNREACHABLE, managed), c, ONLINE);
      case Connection(rounds, online) =>
        var last := if online then [WriteOf(call, ONLINE, managed)] else [];
        ConnectionCount(call, rounds, last, managed, c, AWAITING_DUPLEX);
        ConnectionCount(call, rounds, last, managed, c, ONLINE);
      case Refused =>
        SingleWrites(call, managed);
        PairCount(WriteOf(call, AWAITING_DUPLEX, managed), WriteOf(call, UNREACHABLE, managed), c, AWAITING_DUPLEX);
        PairCount(WriteOf(call, AWAITING_DUPLEX, managed), WriteOf(call, UNREACHABLE, managed), c, ONLINE);
    }
  }

  lemma ConnectionCount(call: nat, rounds: nat, last: seq<Write>, managed: bool, c: nat, status: RemoteStatus)
    requires last == [] || last == [WriteOf(call, ONLINE, managed)]
    ensures Count(Waiting(call, rounds, managed) + last, c, status) ==
      (if c == call && status == AWAITING_DUPLEX then rounds else 0) + (if c == call && status == ONLINE then |last| else 0)
  {
    CountJoin(Waiting(call, rounds, managed), last, c, status);
    CountWaiting(call, rounds, managed, c, status);
    if last != [] {
      CountOne(last[0], c, status);
    }
  }

  lemma PairCount(first: Write, second: Write, c: nat, status: RemoteStatus)
    ensures Count([first] + [second], c, status) ==
      (if first.call == c && first.status == status then 1 else 0) +
      (if second.call == c && second.status == status then 1 else 0)
  {
    CountJoin([first], [second], c, status);
    CountOne(first, c, status);
    CountOne(second, c, status);
  }

  ghost predicate AllPossible(attempts: seq<Attempt>, api: int) {
    forall i :: 0 <= i < |attempts| ==> attempts[i].Possible(api)
  }

  /** Per loop call: at most 11 announcements and one ONLINE in version 1, one of each in 2. */
  lemma {:induction false} BoundedPerCall(attempts: seq<Attempt>, api: int, managed: bool, call: nat)
    requires AllPossible(attempts, api)
    ensures Count(AllWrites(attempts, managed), call, AWAITING_DUPLEX) <=
      (if call > |attempts| then 0 else if api == 1 then 11 else 1)
    ensures Count(AllWrites(attempts, managed), call, ONLINE) <= (if call > |attempts| then 0 else 1)
  {
    hide Attempt.Writes, Attempt.Possible;
    if attempts != [] {
      var last := |attempts| - 1;
      BoundedPerCall(attempts[..last], api, managed, call);
      AttemptCounts(attempts[last], api, |attempts|, managed, call);
      forall status {
        CountJoin(AllWrites(attempts[..last], managed), attempts[last].Writes(|attempts|, managed), call, status);
      }
    }
  }

  /** Each ONLINE directly follows AWAITING_DUPLEX of the same connection; OFFLINE is not among
      the writes of the loop; the transfers fail with every write but ONLINE. */
  ghost predicate Orderly(writes: seq<Write>, managed: bool) {
    && (forall i :: 0 <= i < |writes| && writes[i].status == ONLINE ==>
          i > 0 && writes[i - 1] == WriteOf(writes[i].call, AWAITING_DUPLEX, managed))
    && (forall i :: 0 <= i < |writes| ==> writes[i].status in {UNREACHABLE, AWAITING_DUPLEX, ONLINE})
    && (forall i :: 0 <= i < |writes| ==> (writes[i].failAll <==> managed && writes[i].status != ONLINE))
  }

  lemma OrderlyAttempt(attempt: Attempt, api: int, call: nat, managed: bool)
    requires attempt.Possible(api)
    ensures Orderly(attempt.Writes(call, managed), managed)
  {
  }

  lemma OrderlyJoin(a: seq<Write>, b: seq<Write>, managed: bool)
    requires Orderly(a, managed) && Orderly(b, managed)
    ensures Orderly(a + b, managed)
  {
    forall i | 0 <= i < |a + b| && (a + b)[i].status == ONLINE
      ensures i > 0 && (a + b)[i - 1] == WriteOf((a + b)[i].call, AWAITING_DUPLEX, managed)
    {
      if i >= |a| {
        assert b[i - |a|].status == ONLINE;
        assert b[i - |a| - 1] == (a + b)[i - 1];
      } else {
        assert a[i].status == ONLINE;
      }
    }
  }

  /** What holds of the writes of every run, however the environment answers. */
  lemma {:induction false} RunsAreOrderly(attempts: seq<Attempt>, api: int, managed: bool)
    requires AllPossible(attempts, api)
    ensures Orderly(AllWrites(attempts, managed), managed)
  {
    hide Attempt.Writes, Attempt.Possible, Orderly;
    if attempts != [] {
      var last := |attempts| - 1;
      RunsAreOrderly(attempts[..last], api, managed);
      OrderlyAttempt(attempts[last], api, |attempts|, managed);
      OrderlyJoin(AllWrites(attempts[..last], managed), attempts[last].Writes(|attempts|, managed), managed);
    } else {
      OrderlyNothing(managed);
    }
  }

  lemma OrderlyNothing(managed: bool)
    ensures Orderly([], managed)
  {
  }

  // ----- what the environment is asked -------------------------------------------------

  /** What a loop call asks, or reads, in turn. The flag `stopping` is read in several places:
      after a failed connect, when a connection is given up, after a round, at the head of the
      loop of rounds, with the presence of the remote, and once a duplex check was made. */
  datatype Question =
    | CONNECT | BUSY | PING | DUPLEX | PRESENCE | WAIT(seconds: nat)
    | UNREACHABLE_STOP | GIVEUP_STOP | ROUND_STOP | HEAD_STOP | PRESENT_STOP | DUPLEX_STOP | LOOP_STOP

  datatype Answer = Answer(question: Question, yes: bool)

  /** One loop call: the answers in order, and whether it returned true. */
  datatype Transcript = Transcript(answers: seq<Answer>, again: bool)

  /** How often a question was answered no and yes. */
  datatype Pair = Pair(no: nat, yes: nat) {
    function Plus(answer: bool): Pair {
      if answer then Pair(no, yes + 1) else Pair(no + 1, yes)
    }
  }

  datatype Tally = Tally(
    connect: Pair, busy: Pair, ping: Pair, duplex: Pair, presence: Pair,
    unreachableStop: Pair, giveupStop: Pair, roundStop: Pair, headStop: Pair, presentStop: Pair,
    pauses: nat, rests: nat)

  function Added(n: Tally, a: Answer): Tally {
    match a.question
    case CONNECT => n.(connect := n.connect.Plus(a.yes))
    case BUSY => n.(busy := n.busy.Plus(a.yes))
    case PING => n.(ping := n.ping.Plus(a.yes))
    case DUPLEX => n.(duplex := n.duplex.Plus(a.yes))
    case PRESENCE => n.(presence := n.presence.Plus(a.yes))
    case UNREACHABLE_STOP => n.(unreachableStop := n.unreachableStop.Plus(a.yes))
    case GIVEUP_STOP => n.(giveupStop := n.giveupStop.Plus(a.yes))
    case ROUND_STOP => n.(roundStop := n.roundStop.Plus(a.yes))
    case HEAD_STOP => n.(headStop := n.headStop.Plus(a.yes))
    case PRESENT_STOP => n.(presentStop := n.presentStop.Plus(a.yes))
    case WAIT(seconds) =>
      if seconds == 30 then n.(pauses := n.pauses + 1)
      else if seconds == 20 || seconds == 1 then n.(rests := n.rests + 1) else n
    case _ => n
  }

  const NONE := Pair(0, 0)

  /** The questions of a call and their answers, counted. */
  function Tallied(t: seq<Answer>): Tally {
    if t == [] then Tally(NONE, NONE, NONE, NONE, NONE, NONE, NONE, NONE, NONE, NONE, 0, 0)
    else Added(Tallied(t[..|t| - 1]), t[|t| - 1])
  }

  lemma TalliedNext(t: seq<Answer>, a: Answer)
    ensures Tallied(t + [a]) == Added(Tallied(t), a)
  {
    assert (t + [a])[..|t|] == t;
  }

  lemma TalliedTwice(t: seq<Answer>, a: Answer, b: Answer)
    ensures Tallied(t + [a, b]) == Added(Added(Tallied(t), a), b)
  {
    hide Added, Tallied;
    TalliedNext(t, a);
    TalliedNext(t + [a], b);
    assert t + [a] + [b] == t + [a, b];
  }

  /** A version 1 call is given up exactly after 11 duplex checks answered no, every ping that is
      answered is followed by a check until one is answered yes, and it returns true exactly if
      it was not asked to stop after a failed connect, after giving up, or after leaving the
      rounds of a remote that is still announced. It waits 30 seconds before it returns true after
      the first two, and 20 or 1 between two rounds. */
  predicate LawfulTally(n: Tally, again: bool) {
    && n.connect.no + n.connect.yes == 1 && n.unreachableStop.no + n.unreachableStop.yes == n.connect.no
    && (n.connect.no == 1 ==> n.busy.no == n.busy.yes == 0)
    && n.ping.no + n.ping.yes == n.busy.no
    && n.duplex.no <= 11 && n.duplex.yes <= 1
    && n.duplex.no + n.duplex.yes <= n.ping.yes && (n.duplex.yes == 0 ==> n.duplex.no == n.ping.yes)
    && n.giveupStop.no + n.giveupStop.yes == (if n.duplex.no == 11 then 1 else 0)
    && n.roundStop.no + n.roundStop.yes + n.ping.no + n.giveupStop.no + n.giveupStop.yes == n.busy.no + n.busy.yes
    && n.presence.no + n.presence.yes == n.ping.no + n.headStop.yes
    && n.presentStop.no + n.presentStop.yes == n.presence.yes
    && n.connect.no + n.giveupStop.no + n.giveupStop.yes + n.roundStop.yes + n.presence.no + n.presence.yes == 1
    && (again <==> n.unreachableStop.no + n.giveupStop.no + n.presentStop.no == 1)
    && n.pauses == n.unreachableStop.no + n.giveupStop.no && n.rests == n.roundStop.no
  }

  predicate LawfulV1(t: seq<Answer>, again: bool) {
    t != [] && t[0].question == CONNECT && LawfulTally(Tallied(t), again)
  }

  /** The flag is read, and if it is not set the call waits. */
  function Paused(place: Question, again: bool, w: bool): seq<Answer> {
    if again then [Answer(place, false), Answer(WAIT(10), w)] else [Answer(place, true)]
  }

  function AnswersV2(connected: bool, duplex: bool, again: bool, w: bool): seq<Answer> {
    if connected then [Answer(CONNECT, true), Answer(DUPLEX, duplex)] + Paused(DUPLEX_STOP, again, w)
    else [Answer(CONNECT, false)] + Paused(UNREACHABLE_STOP, again, w)
  }

  /** A version 2 call makes one duplex check if it could connect, and returns true exactly if it
      was not asked to stop after that. */
  predicate LawfulV2(t: seq<Answer>, again: bool) {
    exists connected, duplex, w :: t == AnswersV2(connected, duplex, again, w)
  }

  lemma IsLawfulV2(connected: bool, duplex: bool, again: bool, w: bool)
    ensures LawfulV2(AnswersV2(connected, duplex, again, w), again)
  {
  }

  predicate Lawful(api: int, t: Transcript) {
    (api == 1 ==> LawfulV1(t.answers, t.again)) && (api == 2 ==> LawfulV2(t.answers, t.again))
  }

  /** In the rounds of a version 1 connection. */
  predicate MidwayTally(n: Tally, fails: nat, online: bool, stop: bool) {
    && n.connect.no == 0 && n.connect.yes == 1
    && n.unreachableStop == n.giveupStop == n.presence == n.presentStop == NONE
    && n.pauses == 0 && n.rests == n.roundStop.no
    && n.ping.no == 0 && n.ping.yes == n.busy.no
    && n.duplex.no == fails <= DUPLEX_MAX_FAILURES && n.duplex.yes == (if online then 1 else 0)
    && n.duplex.no + n.duplex.yes <= n.ping.yes && (!online ==> n.duplex.no == n.ping.yes)
    && n.roundStop.no == n.busy.no + n.busy.yes && n.roundStop.yes == 0 && n.headStop.yes == (if stop then 1 else 0)
  }

  predicate Midway(t: seq<Answer>, fails: nat, online: bool, stop: bool) {
    t != [] && t[0].question == CONNECT && MidwayTally(Tallied(t), fails, online, stop)
  }

  /** The rounds were left because a ping failed or the handler was asked to stop. */
  predicate LeftTally(n: Tally) {
    && n.connect.no == 0 && n.connect.yes == 1
    && n.unreachableStop == n.giveupStop == n.presence == n.presentStop == NONE
    && n.pauses == 0 && n.rests == n.roundStop.no
    && n.ping.no + n.headStop.yes == 1 && n.ping.no + n.ping.yes == n.busy.no
    && n.duplex.no <= DUPLEX_MAX_FAILURES && n.duplex.yes <= 1
    && n.duplex.no + n.duplex.yes <= n.ping.yes && (n.duplex.yes == 0 ==> n.duplex.no + n.duplex.yes == n.ping.yes)
    && n.roundStop.no + n.ping.no == n.busy.no + n.busy.yes && n.roundStop.yes == 0
  }

  predicate Left(t: seq<Answer>) {
    t != [] && t[0].question == CONNECT && LeftTally(Tallied(t))
  }

  /** What is asked in one round before the flag is read. */
  datatype Round = WasBusy | NoPing | Pinged | Checked(duplex: bool) {
    function Answers(): seq<Answer> {
      match this
      case WasBusy => [Answer(BUSY, true)]
      case NoPing => [Answer(BUSY, false), Answer(PING, false)]
      case Pinged => [Answer(BUSY, false), Answer(PING, true)]
      case Checked(duplex) => [Answer(BUSY, false), Answer(PING, true), Answer(DUPLEX, duplex)]
    }

    function AddedTo(n: Tally): Tally {
      match this
      case WasBusy => Added(n, Answer(BUSY, true))
      case NoPing => Added(Added(n, Answer(BUSY, false)), Answer(PING, false))
      case Pinged => Added(Added(n, Answer(BUSY, false)), Answer(PING, true))
      case Checked(duplex) => Added(Added(Added(n, Answer(BUSY, false)), Answer(PING, true)), Answer(DUPLEX, duplex))
    }
  }

  lemma RoundTallied(t: seq<Answer>, round: Round)
    ensures Tallied(t + round.Answers()) == round.AddedTo(Tallied(t))
  {
    hide Added, Tallied;
    match round {
      case WasBusy => TalliedNext(t, Answer(BUSY, true));
      case NoPing => TalliedTwice(t, Answer(BUSY, false), Answer(PING, false));
      case Pinged => TalliedTwice(t, Answer(BUSY, false), Answer(PING, true));
      case Checked(duplex) =>
        TalliedTwice(t, Answer(BUSY, false), Answer(PING, true));
        TalliedNext(t + [Answer(BUSY, false), Answer(PING, true)], Answer(DUPLEX, duplex));
        assert t + round.Answers() == t + [Answer(BUSY, false), Answer(PING, true)] + [Answer(DUPLEX, duplex)];
    }
  }

  lemma RoundAdds(n: Tally, round: Round)
    ensures round.AddedTo(n) == n.(
      busy := n.busy.Plus(round.WasBusy?),
      ping := if round.WasBusy? then n.ping else n.ping.Plus(!round.NoPing?),
      duplex := if round.Checked? then n.duplex.Plus(round.duplex) else n.duplex)
  {
  }

  lemma RoundsBegin(stop: bool)
    ensures Midway([Answer(CONNECT, true), Answer(HEAD_STOP, stop)], 0, false, stop)
  {
    var t := [Answer(CONNECT, true), Answer(HEAD_STOP, stop)];
    TalliedTwice([], t[0], t[1]);
    assert [] + t == t;
  }

  lemma NotConnected(stop: bool, w: bool)
    ensures stop ==> LawfulV1([Answer(CONNECT, false), Answer(UNREACHABLE_STOP, stop)], false)
    ensures !stop ==> LawfulV1([Answer(CONNECT, false), Answer(UNREACHABLE_STOP, stop), Answer(WAIT(30), w)], true)
  {
    var t := [Answer(CONNECT, false), Answer(UNREACHABLE_STOP, stop)];
    TalliedTwice([], t[0], t[1]);
    assert [] + t == t;
    TalliedNext(t, Answer(WAIT(30), w));
    assert t + [Answer(WAIT(30), w)] == [Answer(CONNECT, false), Answer(UNREACHABLE_STOP, stop), Answer(WAIT(30), w)];
  }

  /** A failed ping leaves the rounds, and so does a request to stop at their head. */
  lemma RoundsLeft(t: seq<Answer>, fails: nat, online: bool, stop: bool)
    requires Midway(t, fails, online, stop)
    ensures stop ==> Left(t)
    ensures !stop ==> Left(t + NoPing.Answers())
  {
    hide Tallied;
    RoundTallied(t, NoPing);
  }

  lemma MidwayFails(t: seq<Answer>, fails: nat, online: bool, stop: bool)
    requires Midway(t, fails, online, stop)
    ensures fails <= DUPLEX_MAX_FAILURES
  {
  }

  lemma LeftTallyEnds(n: Tally, stop: bool)
    requires LeftTally(n)
    ensures LawfulTally(Added(n, Answer(PRESENCE, false)), false)
    ensures LawfulTally(Added(Added(n, Answer(PRESENCE, true)), Answer(PRESENT_STOP, stop)), !stop)
  {
  }

  lemma LeftEnds(t: seq<Answer>, stop: bool)
    requires Left(t)
    ensures LawfulV1(t + [Answer(PRESENCE, false)], false)
    ensures LawfulV1(t + [Answer(PRESENCE, true), Answer(PRESENT_STOP, stop)], !stop)
  {
    hide Tallied, Added, LawfulTally, LeftTally;
    LeftTallyEnds(Tallied(t), stop);
    TalliedNext(t, Answer(PRESENCE, false));
    TalliedTwice(t, Answer(PRESENCE, true), Answer(PRESENT_STOP, stop));
  }

  /** The eleventh check that is answered no gives the connection up. */
  lemma TallyGivenUp(n: Tally, stop: bool, w: bool)
    requires MidwayTally(n, DUPLEX_MAX_FAILURES, false, false)
    ensures
      var m := Added(Checked(false).AddedTo(n), Answer(GIVEUP_STOP, stop));
      (stop ==> LawfulTally(m, false)) && (!stop ==> LawfulTally(Added(m, Answer(WAIT(30), w)), true))
  {
    hide Round.AddedTo;
    RoundAdds(n, Checked(false));
  }

  lemma GivenUp(t: seq<Answer>, stop: bool, w: bool)
    requires Midway(t, DUPLEX_MAX_FAILURES, false, false)
    ensures
      var u := t + Checked(false).Answers() + [Answer(GIVEUP_STOP, stop)];
      (stop ==> LawfulV1(u, false)) && (!stop ==> LawfulV1(u + [Answer(WAIT(30), w)], true))
  {
    hide Tallied, Added, LawfulTally, MidwayTally, Round.AddedTo;
    TallyGivenUp(Tallied(t), stop, w);
    var u := t + Checked(false).Answers();
    RoundTallied(t, Checked(false));
    TalliedNext(u, Answer(GIVEUP_STOP, stop));
    TalliedNext(u + [Answer(GIVEUP_STOP, stop)], Answer(WAIT(30), w));
  }

  predicate Goes(fails: nat, online: bool, round: Round) {
    && !round.NoPing? && (round.Pinged? ==> online)
    && (round.Checked? ==> !online && (round.duplex || fails < DUPLEX_MAX_FAILURES))
  }

  /** Any other round either ends the call, because it was asked to stop, or goes on. */
  lemma TallyStopped(n: Tally, fails: nat, online: bool, round: Round)
    requires MidwayTally(n, fails, online, false) && Goes(fails, online, round)
    ensures LawfulTally(Added(round.AddedTo(n), Answer(ROUND_STOP, true)), false)
  {
    hide Round.AddedTo;
    RoundAdds(n, round);
  }

  lemma RoundStopped(t: seq<Answer>, fails: nat, online: bool, round: Round)
    requires Midway(t, fails, online, false) && Goes(fails, online, round)
    ensures LawfulV1(t + round.Answers() + [Answer(ROUND_STOP, true)], false)
  {
    hide Tallied, Added, LawfulTally, MidwayTally, Round.AddedTo, Round.Answers;
    TallyStopped(Tallied(t), fails, online, round);
    RoundTallied(t, round);
    TalliedNext(t + round.Answers(), Answer(ROUND_STOP, true));
  }

  lemma NextTally(n: Tally, fails: nat, online: bool, round: Round, seconds: nat, w: bool, head: bool)
    requires (seconds == 20 || seconds == 1) && MidwayTally(n, fails, online, false) && Goes(fails, online, round)
    ensures MidwayTally(
      Added(Added(Added(round.AddedTo(n), Answer(ROUND_STOP, false)), Answer(WAIT(seconds), w)), Answer(HEAD_STOP, head)),
      if round == Checked(false) then fails + 1 else fails, online || round == Checked(true), head)
  {
  }

  lemma NextRound(t: seq<Answer>, fails: nat, online: bool, round: Round, seconds: nat, w: bool, head: bool)
    requires (seconds == 20 || seconds == 1) && Midway(t, fails, online, false) && Goes(fails, online, round)
    ensures Midway(t + round.Answers() + [Answer(ROUND_STOP, false)] + [Answer(WAIT(seconds), w)] + [Answer(HEAD_STOP, head)],
      if round == Checked(false) then fails + 1 else fails, online || round == Checked(true), head)
  {
    hide Tallied, Added, MidwayTally, Round.AddedTo, Round.Answers;
    NextTally(Tallied(t), fails, online, round, seconds, w, head);
    var u := t + round.Answers();
    RoundTallied(t, round);
    TalliedNext(u, Answer(ROUND_STOP, false));
    TalliedNext(u + [Answer(ROUND_STOP, false)], Answer(WAIT(seconds), w));
    TalliedNext(u + [Answer(ROUND_STOP, false)] + [Answer(WAIT(seconds), w)], Answer(HEAD_STOP, head));
  }

  // ----- what is written in reply ------------------------------------------------------

  /** A connect answered no is followed by UNREACHABLE. A duplex check is announced by
      AWAITING_DUPLEX; if it is answered yes ONLINE follows, otherwise in version 2 UNREACHABLE. */
  function Reply(api: int, call: nat, a: Answer, managed: bool): seq<Write> {
    if a == Answer(CONNECT, false) then [WriteOf(call, UNREACHABLE, managed)]
    else if a.question == DUPLEX then
      [WriteOf(call, AWAITING_DUPLEX, managed)] +
      if a.yes then [WriteOf(call, ONLINE, managed)]
      else if api == 2 then [WriteOf(call, UNREACHABLE, managed)] else []
    else []
  }

  function Replies(api: int, call: nat, t: seq<Answer>, managed: bool): seq<Write> {
    if t == [] then []
    else Replies(api, call, t[..|t| - 1], managed) + Reply(api, call, t[|t| - 1], managed)
  }

  function AllReplies(api: int, transcripts: seq<Transcript>, managed: bool): seq<Write> {
    if transcripts == [] then []
    else
      var n := |transcripts|;
      AllReplies(api, transcripts[..n - 1], managed) + Replies(api, n, transcripts[n - 1].answers, managed)
  }

  lemma RepliesNext(api: int, call: nat, t: seq<Answer>, a: Answer, managed: bool)
    ensures Replies(api, call, t + [a], managed) == Replies(api, call, t, managed) + Reply(api, call, a, managed)
  {
    assert (t + [a])[..|t|] == t;
  }

  lemma CountReply(api: int, call: nat, a: Answer, managed: bool)
    ensures Count(Reply(api, call, a, managed), call, AWAITING_DUPLEX) == (if a.question == DUPLEX then 1 else 0)
    ensures Count(Reply(api, call, a, managed), call, ONLINE) == (if a == Answer(DUPLEX, true) then 1 else 0)
    ensures Count(Reply(api, call, a, managed), call, UNREACHABLE) ==
      (if a == Answer(CONNECT, false) || (api == 2 && a == Answer(DUPLEX, false)) then 1 else 0)
  {
    NothingCounted(call);
    ReplyCount(api, call, a, managed, AWAITING_DUPLEX);
    ReplyCount(api, call, a, managed, ONLINE);
    ReplyCount(api, call, a, managed, UNREACHABLE);
  }

  lemma ReplyCount(api: int, call: nat, a: Answer, managed: bool, status: RemoteStatus)
    ensures Count(Reply(api, call, a, managed), call, status) ==
      if a == Answer(CONNECT, false) then (if status == UNREACHABLE then 1 else 0)
      else if a.question != DUPLEX then 0
      else (if status == AWAITING_DUPLEX then 1 else 0) +
           (if status == ONLINE && a.yes then 1 else 0) + (if status == UNREACHABLE && !a.yes && api == 2 then 1 else 0)
  {
    hide Count;
    var awaiting := WriteOf(call, AWAITING_DUPLEX, managed);
    NothingCounted(call);
    CountOne(WriteOf(call, UNREACHABLE, managed), call, status);
    CountOne(awaiting, call, status);
    PairCount(awaiting, WriteOf(call, ONLINE, managed), call, status);
    PairCount(awaiting, WriteOf(call, UNREACHABLE, managed), call, status);
    assert [awaiting] + [] == [awaiting];
  }

  lemma AddedCounts(n: Tally, a: Answer)
    ensures Added(n, a).duplex.yes == n.duplex.yes + if a == Answer(DUPLEX, true) then 1 else 0
    ensures Added(n, a).duplex.no == n.duplex.no + if a == Answer(DUPLEX, false) then 1 else 0
    ensures Added(n, a).connect.no == n.connect.no + if a == Answer(CONNECT, false) then 1 else 0
  {
  }

  /** A call writes one AWAITING_DUPLEX for each duplex check, one ONLINE for each that was answered
      yes, and UNREACHABLE for a connect answered no, in version 2 also for a check answered no. */
  lemma {:induction false} AnswersCounted(api: int, call: nat, t: seq<Answer>, managed: bool)
    ensures Count(Replies(api, call, t, managed), call, AWAITING_DUPLEX) == Tallied(t).duplex.no + Tallied(t).duplex.yes
    ensures Count(Replies(api, call, t, managed), call, ONLINE) == Tallied(t).duplex.yes
    ensures Count(Replies(api, call, t, managed), call, UNREACHABLE) ==
      Tallied(t).connect.no + (if api == 2 then Tallied(t).duplex.no else 0)
  {
    hide Reply, Count, Added;
    if t == [] {
      NothingCounted(call);
    } else {
      var before, a := t[..|t| - 1], t[|t| - 1];
      AnswersCounted(api, call, before, managed);
      AddedCounts(Tallied(before), a);
      CountReply(api, call, a, managed);
      CountJoin(Replies(api, call, before, managed), Reply(api, call, a, managed), call, AWAITING_DUPLEX);
      CountJoin(Replies(api, call, before, managed), Reply(api, call, a, managed), call, ONLINE);
      CountJoin(Replies(api, call, before, managed), Reply(api, call, a, managed), call, UNREACHABLE);
    }
  }

  lemma NothingCounted(call: nat)
    ensures forall status :: Count([], call, status) == 0
  {
  }

  lemma {:induction false} RepliesStart(api: int, call: nat, t: seq<Answer>, managed: bool)
    requires t != [] && forall k :: 1 <= k < |t| ==> t[k].question != CONNECT
    ensures Reply(api, call, t[0], managed) <= Replies(api, call, t, managed)
    ensures t[0] == Answer(CONNECT, true) && Replies(api, call, t, managed) != [] ==>
      Replies(api, call, t, managed)[0].status == AWAITING_DUPLEX
  {
    var before := t[..|t| - 1];
    if |t| > 1 {
      RepliesStart(api, call, before, managed);
    } else {
      assert before == [];
    }
  }

  lemma {:induction false} OneConnect(t: seq<Answer>)
    requires t != [] && t[0].question == CONNECT
    ensures Tallied(t).connect.no + Tallied(t).connect.yes >= 1
    ensures Tallied(t).connect.no + Tallied(t).connect.yes == 1 ==> forall k :: 1 <= k < |t| ==> t[k].question != CONNECT
  {
    if |t| > 1 {
      OneConnect(t[..|t| - 1]);
    } else {
      assert t[..0] == [];
    }
  }

  lemma V2Starts(t: seq<Answer>, again: bool)
    requires LawfulV2(t, again)
    ensures t != [] && t[0].question == CONNECT && forall k :: 1 <= k < |t| ==> t[k].question != CONNECT
  {
  }

  /** A call of either version writes UNREACHABLE first exactly when it could not connect. */
  lemma UnreachableFirstExactly(api: int, call: nat, t: Transcript, managed: bool)
    requires (api == 1 || api == 2) && Lawful(api, t)
    ensures t.answers != [] && t.answers[0].question == CONNECT
    ensures
      var writes := Replies(api, call, t.answers, managed);
      (writes != [] && writes[0].status == UNREACHABLE) <==> !t.answers[0].yes
  {
    hide LawfulV2, Tallied;
    if api == 1 {
      OneConnect(t.answers);
    } else {
      V2Starts(t.answers, t.again);
    }
    RepliesStart(api, call, t.answers, managed);
  }

  lemma ReplyBegins(api: int, call: nat, a: Answer, managed: bool)
    ensures
      var reply := Reply(api, call, a, managed);
      && (reply != [] ==> reply[0].status != ONLINE)
      && (a.question == DUPLEX ==>
           && reply != [] && reply[0].status == AWAITING_DUPLEX
           && (a.yes <==> |reply| > 1 && reply[1].status == ONLINE))
  {
  }

  /** Every duplex check has its AWAITING_DUPLEX among the writes of the call, and ONLINE is the
      next write exactly when the check was answered yes. */
  lemma {:induction false} OnlineNextExactly(api: int, call: nat, t: seq<Answer>, k: nat, managed: bool)
    requires k < |t| && t[k].question == DUPLEX
    ensures
      var writes, i := Replies(api, call, t, managed), |Replies(api, call, t[..k], managed)|;
      && i < |writes| && writes[i].status == AWAITING_DUPLEX
      && (t[k].yes <==> i + 1 < |writes| && writes[i + 1].status == ONLINE)
  {
    hide Reply;
    var before := t[..|t| - 1];
    ReplyBegins(api, call, t[|t| - 1], managed);
    if k < |t| - 1 {
      OnlineNextExactly(api, call, before, k, managed);
      assert before[..k] == t[..k];
    }
  }

  lemma NothingReplied(api: int, call: nat, managed: bool)
    ensures Replies(api, call, [], managed) == []
  {
  }

  lemma ConnectReplies(call: nat, managed: bool)
    ensures Replies(2, call, [Answer(CONNECT, true)], managed) == []
    ensures Replies(2, call, [Answer(CONNECT, false)], managed) == [WriteOf(call, UNREACHABLE, managed)]
  {
    hide Replies;
    NothingReplied(2, call, managed);
    RepliesNext(2, call, [], Answer(CONNECT, true), managed);
    RepliesNext(2, call, [], Answer(CONNECT, false), managed);
    assert forall a: Answer :: [] + [a] == [a];
  }

  lemma DuplexReplies(call: nat, duplex: bool, managed: bool)
    ensures Replies(2, call, [Answer(CONNECT, true)] + [Answer(DUPLEX, duplex)], managed) ==
      [WriteOf(call, AWAITING_DUPLEX, managed)] + [WriteOf(call, if duplex then ONLINE else UNREACHABLE, managed)]
  {
    ConnectReplies(call, managed);
    RepliesNext(2, call, [Answer(CONNECT, true)], Answer(DUPLEX, duplex), managed);
  }

  lemma NothingToReply(call: nat, stop: bool, managed: bool)
    ensures Replies(1, call, [Answer(CONNECT, true), Answer(HEAD_STOP, stop)], managed) == []
  {
    hide Replies;
    NothingReplied(1, call, managed);
    RepliesNext(1, call, [], Answer(CONNECT, true), managed);
    RepliesNext(1, call, [Answer(CONNECT, true)], Answer(HEAD_STOP, stop), managed);
    assert [] + [Answer(CONNECT, true)] == [Answer(CONNECT, true)];
    assert [Answer(CONNECT, true)] + [Answer(HEAD_STOP, stop)] == [Answer(CONNECT, true), Answer(HEAD_STOP, stop)];
  }

  /** Of one round only a duplex check is replied to. */
  lemma RoundReplies(call: nat, t: seq<Answer>, round: Round, managed: bool)
    ensures Replies(1, call, t + round.Answers(), managed)
         == Replies(1, call, t, managed) + if round.Checked? then Reply(1, call, Answer(DUPLEX, round.duplex), managed) else []
  {
    hide Replies;
    var first := round.Answers()[0];
    RepliesNext(1, call, t, first, managed);
    if round.WasBusy? {
      assert round.Answers() == [first];
    } else {
      var second := round.Answers()[1];
      RepliesNext(1, call, t + [first], second, managed);
      assert t + [first] + [second] == t + [first, second];
      if round.Checked? {
        RepliesNext(1, call, t + [first, second], Answer(DUPLEX, round.duplex), managed);
        assert t + round.Answers() == t + [first, second] + [Answer(DUPLEX, round.duplex)];
      } else {
        assert round.Answers() == [first, second];
      }
    }
  }

  lemma DuplexWrites(call: nat, rounds: nat, duplex: bool, managed: bool)
    ensures Connection(rounds + 1, duplex).Writes(call, managed)
         == Connection(rounds, false).Writes(call, managed) + Reply(1, call, Answer(DUPLEX, duplex), managed)
  {
    ConnectionGrows(call, rounds, managed);
    ConnectionGrows(call, rounds + 1, managed);
  }

  /** What happened in one round of the loop: it ended the loop or the call, or the flag was read
      again at the head of the loop. */
  datatype Rounded = Broken | CallEnded(again: bool) | Headed(stop: bool)

  // ----- the handler -------------------------------------------------------------------

  class Handler {
    const api: int
    /** Whether a transfer manager is set. */
    const managed: bool

    var script: seq<Choice>
    var stopping: bool
    var busy: bool
    var state: RemoteStatus
    var writes: seq<Write>
    var calls: nat

    /** What every loop call so far did, and what it was answered. */
    ghost var attempts: seq<Attempt>
    ghost var transcripts: seq<Transcript>
    /** The answers in the current loop call. */
    ghost var log: seq<Answer>
    /** How many loop calls had begun when the request to stop arrived. */
    ghost var callsAtStop: nat

    ghost predicate Valid()
      reads this
    {
      && calls == |attempts| == |transcripts|
      && writes == AllWrites(attempts, managed) == AllReplies(api, transcripts, managed)
      && AllPossible(attempts, api)
      && (forall i :: 0 <= i < |transcripts| ==> Lawful(api, transcripts[i]))
      && (stopping ==> callsAtStop <= calls)
    }

    constructor (api: int, managed: bool, script: seq<Choice>, state: RemoteStatus)
      ensures Valid() && this.api == api && this.managed == managed && this.script == script
      ensures attempts == [] && !stopping && this.state == state
    {
      this.api, this.managed, this.script, this.state := api, managed, script, state;
      stopping, busy, writes, calls := false, false, [], 0;
      attempts, transcripts, log, callsAtStop := [], [], [], 0;
    }

    /** The next answer of the environment, which may come with a request to stop. */
    method Ask(ghost question: Question) returns (answer: bool)
      modifies this`script, this`stopping, this`callsAtStop, this`log
      ensures old(script) == [] ==> !answer && stopping && script == []
      ensures old(script) != [] ==> script == old(script)[1..] && answer == old(script)[0].answer
      ensures old(stopping) ==> stopping
      ensures callsAtStop == if stopping && !old(stopping) then calls else old(callsAtStop)
      ensures log == old(log) + [Answer(question, answer)]
    {
      var choice := if script == [] then Choice(false, true) else script[0];
      if script != [] {
        script := script[1..];
      }
      if choice.stop && !stopping {
        stopping, callsAtStop := true, calls;
      }
      answer := choice.answer;
      log := log + [Answer(question, answer)];
    }

    /** Reads the flag that other threads may set at any time. */
    method IsStopping(ghost place: Question) returns (stop: bool)
      modifies this`script, this`stopping, this`callsAtStop, this`log
      ensures stop == stopping && (old(script) == [] ==> stop && script == [])
      ensures old(script) != [] ==> script == old(script)[1..]
      ensures old(stopping) ==> stopping
      ensures callsAtStop == if stopping && !old(stopping) then calls else old(callsAtStop)
      ensures log == old(log) + [Answer(place, stop)]
    {
      ghost var before := log;
      var ignored := Ask(place);
      stop := stopping;
      log := before + [Answer(place, stop)];
    }

    /** `setRemoteStatus`, with the edit listener of the remote manager. */
    method SetRemoteStatus(newStatus: RemoteStatus, call: nat)
      modifies this`state, this`writes
      ensures state == newStatus && writes == old(writes) + [WriteOf(call, newStatus, managed)]
    {
      state := newStatus;
      var failAll := false;
      if state != ONLINE && managed {
        failAll := true;
      }
      writes := writes + [Write(call, newStatus, failAll)];
    }

    /** Closes the record of the current loop call. */
    ghost method Finish(attempt: Attempt, again: bool)
      requires attempt.Possible(api) && calls == |attempts| + 1 == |transcripts| + 1
      requires AllPossible(attempts, api)
      requires forall i :: 0 <= i < |transcripts| ==> Lawful(api, transcripts[i])
      requires Lawful(api, Transcript(log, again))
      requires writes == AllWrites(attempts, managed) + attempt.Writes(calls, managed)
      requires writes == AllReplies(api, transcripts, managed) + Replies(api, calls, log, managed)
      requires stopping ==> callsAtStop <= calls
      modifies this`attempts, this`transcripts
      ensures attempts == old(attempts) + [attempt] && transcripts == old(transcripts) + [Transcript(log, again)] && Valid()
    {
      hide Attempt.Writes, Attempt.Possible, Lawful, Replies;
      attempts, transcripts := attempts + [attempt], transcripts + [Transcript(log, again)];
      assert attempts[..|attempts| - 1] == old(attempts) && transcripts[..|transcripts| - 1] == old(transcripts);
    }

    /** Announces that the duplex connection is awaited, and ONLINE if it is there. */
    method CheckDuplex() returns (duplex: bool)
      requires api == 1
      modifies this`script, this`stopping, this`callsAtStop, this`state, this`writes, this`log
      ensures log == old(log) + [Answer(DUPLEX, duplex)]
      ensures writes == old(writes) + Reply(1, calls, Answer(DUPLEX, duplex), managed)
      ensures |script| <= |old(script)| && (old(stopping) ==> stopping)
      ensures callsAtStop == if stopping && !old(stopping) then calls else old(callsAtStop)
    {
      SetRemoteStatus(AWAITING_DUPLEX, calls);
      duplex := Ask(DUPLEX);
      if duplex {
        SetRemoteStatus(ONLINE, calls);
      }
    }

    method SecureLoopV1() returns (again: bool)
      requires Valid() && api == 1
      modifies this
      ensures Valid() && calls == old(calls) + 1
      ensures |transcripts| > 0 && transcripts[..|transcripts| - 1] == old(transcripts)
      ensures transcripts[|transcripts| - 1].again == again
      ensures old(stopping) ==> stopping && callsAtStop == old(callsAtStop) && !again
      ensures again ==> |script| < |old(script)|
      ensures !old(stopping) && stopping ==> callsAtStop == calls
    {
      hide AllWrites, AllReplies, Attempt.Writes, WriteOf, Replies, LawfulV1;
      calls, log := calls + 1, [];
      NothingReplied(api, calls, managed);
      var connected := Ask(CONNECT);
      RepliesNext(api, calls, [], Answer(CONNECT, connected), managed);
      assert [] + log == log;
      if connected {
        ghost var rounds, online;
        again, rounds, online := PingLoop();
        Finish(Connection(rounds, online), again);
      } else {
        SetRemoteStatus(UNREACHABLE, calls);
        SingleWrites(calls, managed);
        again := RetryUnreachable();
        Finish(Unconnected, again);
      }
    }

    /** Waits before the next loop call, unless asked to stop. */
    method RetryUnreachable() returns (again: bool)
      requires log == [Answer(CONNECT, false)]
      modifies this`script, this`stopping, this`callsAtStop, this`log
      ensures LawfulV1(log, again)
      ensures Replies(api, calls, log, managed) == Replies(api, calls, old(log), managed)
      ensures |script| <= |old(script)| && (again ==> !old(stopping))
      ensures old(stopping) ==> stopping
      ensures callsAtStop == if stopping && !old(stopping) then calls else old(callsAtStop)
    {
      hide LawfulV1, Replies;
      var stop := IsStopping(UNREACHABLE_STOP);
      NotConnected(stop, false);
      NotConnected(stop, true);
      RepliesNext(api, calls, old(log), Answer(UNREACHABLE_STOP, stop), managed);
      assert log == [Answer(CONNECT, false), Answer(UNREACHABLE_STOP, stop)];
      if stop {
        return false;
      }
      ghost var before := log;
      Wait(CHANNEL_RETRY_WAIT_TIME);
      RepliesNext(api, calls, before, log[|before|], managed);
      assert log == [Answer(CONNECT, false), Answer(UNREACHABLE_STOP, stop), log[2]];
      again := true;
    }

    /** One round of the loop: a ping unless the remote was busy, and until the duplex connection
        is there a check for it. */
    method KeepAlive(onePing: bool) returns (pingOk: bool, checked: bool, duplex: bool, ghost round: Round)
      requires api == 1
      modifies this`script, this`stopping, this`callsAtStop, this`state, this`writes, this`busy, this`log
      ensures log == old(log) + round.Answers()
      ensures pingOk == !round.NoPing? && checked == round.Checked? && (checked ==> round.duplex == duplex)
      ensures (round.Checked? ==> !onePing) && (round.Pinged? ==> onePing)
      ensures writes == old(writes) + if checked then Reply(1, calls, Answer(DUPLEX, duplex), managed) else []
      ensures |script| <= |old(script)| && (|script| < |old(script)| || stopping)
      ensures old(stopping) ==> stopping
      ensures callsAtStop == if stopping && !old(stopping) then calls else old(callsAtStop)
    {
      hide Reply;
      checked, duplex := false, false;
      busy := Ask(BUSY);
      if busy {
        busy := false;
        return true, false, false, WasBusy;
      }
      pingOk := Ask(PING);
      round := if pingOk then Pinged else NoPing;
      if pingOk && !onePing {
        checked := true;
        duplex := CheckDuplex();
        round := Checked(duplex);
      }
    }

    /** Too many failures: waits before the next loop call, unless asked to stop. */
    method RetryLater(ghost t: seq<Answer>) returns (again: bool)
      requires Midway(t, DUPLEX_MAX_FAILURES, false, false) && log == t + Checked(false).Answers()
      modifies this`script, this`stopping, this`callsAtStop, this`log
      ensures LawfulV1(log, again)
      ensures Replies(api, calls, log, managed) == Replies(api, calls, old(log), managed)
      ensures |script| <= |old(script)| && (again ==> !old(stopping))
      ensures old(stopping) ==> stopping
      ensures callsAtStop == if stopping && !old(stopping) then calls else old(callsAtStop)
    {
      hide LawfulV1, Replies, Midway, Round.Answers;
      var stop := IsStopping(GIVEUP_STOP);
      GivenUp(t, stop, false);
      GivenUp(t, stop, true);
      RepliesNext(api, calls, old(log), Answer(GIVEUP_STOP, stop), managed);
      if stop {
        return false;
      }
      ghost var before := log;
      Wait(CHANNEL_RETRY_WAIT_TIME);
      RepliesNext(api, calls, before, log[|before|], managed);
      again := true;
    }

    /** One round: the ping, the count of failed checks, and the flag. */
    method PingRound(fails: nat, onePing: bool, ghost before: seq<Write>)
      returns (rounded: Rounded, duplexFailCounter: nat, online: bool)
      requires api == 1 && Midway(log, fails, onePing, false)
      requires writes == before + Connection(fails + (if onePing then 1 else 0), onePing).Writes(calls, managed)
      requires writes == before + Replies(1, calls, log, managed)
      modifies this`script, this`stopping, this`callsAtStop, this`state, this`writes, this`busy, this`log
      ensures writes == before + Connection(duplexFailCounter + (if online then 1 else 0), online).Writes(calls, managed)
      ensures writes == before + Replies(1, calls, log, managed)
      ensures rounded.Broken? ==> Left(log) && duplexFailCounter <= DUPLEX_MAX_FAILURES
      ensures rounded.CallEnded? ==> LawfulV1(log, rounded.again) && (rounded.again ==> !old(stopping))
      ensures rounded.CallEnded? ==> duplexFailCounter + (if online then 1 else 0) <= DUPLEX_MAX_FAILURES + 1
      ensures rounded.Headed? ==> rounded.stop == stopping && Midway(log, duplexFailCounter, online, rounded.stop)
      ensures rounded.Headed? ==> duplexFailCounter <= DUPLEX_MAX_FAILURES && (|script| < |old(script)| || stopping)
      ensures |script| <= |old(script)| && (old(stopping) ==> stopping)
      ensures callsAtStop == if stopping && !old(stopping) then calls else old(callsAtStop)
    {
      hide Attempt.Writes, WriteOf, Replies, Reply, LawfulV1, Midway, Left, Round.Answers;
      MidwayFails(log, fails, onePing, false);
      RoundsLeft(log, fails, onePing, false);
      duplexFailCounter, online := fails, onePing;
      var pingOk, checked, duplex, round := KeepAlive(onePing);
      RoundReplies(calls, old(log), round, managed);
      if !pingOk {
        return Broken, fails, onePing;
      }
      if checked {
        DuplexWrites(calls, fails, duplex, managed);
        online := duplex;
        if !duplex {
          duplexFailCounter := fails + 1;
          if duplexFailCounter > DUPLEX_MAX_FAILURES {
            var again := RetryLater(old(log));
            return CallEnded(again), duplexFailCounter, online;
          }
        }
      }
      var stop := AfterRound(old(log), fails, onePing, round);
      if stop {
        return CallEnded(false), duplexFailCounter, online;
      }
      stop := HeadOfRound(old(log), fails, onePing, round);
      rounded := Headed(stop);
      MidwayFails(log, duplexFailCounter, online, stop);
    }

    /** The loop of an established v1 connection. */
    method PingLoop() returns (again: bool, ghost rounds: nat, ghost online: bool)
      requires api == 1 && log == [Answer(CONNECT, true)]
      modifies this`script, this`stopping, this`callsAtStop, this`state, this`writes, this`busy, this`log
      ensures LawfulV1(log, again)
      ensures writes == old(writes) + Replies(1, calls, log, managed)
      ensures writes == old(writes) + Connection(rounds, online).Writes(calls, managed)
      ensures Connection(rounds, online).Possible(1)
      ensures |script| <= |old(script)| && (again ==> !old(stopping))
      ensures old(stopping) ==> stopping
      ensures callsAtStop == if stopping && !old(stopping) then calls else old(callsAtStop)
    {
      hide Attempt.Writes, WriteOf, Count, Orderly, Replies, Reply, LawfulV1, Midway, Left;
      var duplexFailCounter: nat, onePing := 0, false;
      ConnectionGrows(calls, 0, managed);
      var stop := IsStopping(HEAD_STOP);
      RoundsBegin(stop);
      assert log == [Answer(CONNECT, true), Answer(HEAD_STOP, stop)];
      NothingToReply(calls, stop, managed);
      rounds, online := 0, false;
      while !stop
        invariant stop == stopping && (old(stopping) ==> stopping)
        invariant callsAtStop == if stopping && !old(stopping) then calls else old(callsAtStop)
        invariant |script| <= |old(script)|
        invariant duplexFailCounter <= DUPLEX_MAX_FAILURES && online == onePing
        invariant rounds == duplexFailCounter + if onePing then 1 else 0
        invariant Midway(log, duplexFailCounter, onePing, stop)
        invariant writes == old(writes) + Connection(rounds, onePing).Writes(calls, managed)
        invariant writes == old(writes) + Replies(1, calls, log, managed)
        decreases |script|, !stop
      {
        var rounded;
        rounded, duplexFailCounter, onePing := PingRound(duplexFailCounter, onePing, old(writes));
        rounds, online := duplexFailCounter + (if onePing then 1 else 0), onePing;
        match rounded {
          case Broken => break;
          case CallEnded(ended) => return ended, rounds, online;
          case Headed(head) => stop := head;
        }
      }
      if stop {
        RoundsLeft(log, duplexFailCounter, onePing, stop);
      }
      again := LeaveRounds();
    }

    /** Reads the flag after a round. */
    method AfterRound(ghost t: seq<Answer>, ghost fails: nat, ghost online: bool, ghost round: Round) returns (stop: bool)
      requires Midway(t, fails, online, false) && Goes(fails, online, round) && log == t + round.Answers()
      modifies this`script, this`stopping, this`callsAtStop, this`log
      ensures stop == stopping && log == old(log) + [Answer(ROUND_STOP, stop)] && (stop ==> LawfulV1(log, false))
      ensures Replies(1, calls, log, managed) == Replies(1, calls, old(log), managed)
      ensures |script| <= |old(script)| && (old(stopping) ==> stopping)
      ensures callsAtStop == if stopping && !old(stopping) then calls else old(callsAtStop)
    {
      hide LawfulV1, Replies, Midway, Round.Answers;
      RoundStopped(t, fails, online, round);
      stop := IsStopping(ROUND_STOP);
      RepliesNext(1, calls, old(log), Answer(ROUND_STOP, stop), managed);
    }

    /** Waits, and reads the flag at the head of the loop. */
    method HeadOfRound(ghost t: seq<Answer>, ghost fails: nat, ghost online: bool, ghost round: Round) returns (stop: bool)
      requires Midway(t, fails, online, false) && Goes(fails, online, round)
      requires log == t + round.Answers() + [Answer(ROUND_STOP, false)]
      modifies this`script, this`stopping, this`callsAtStop, this`log
      ensures stop == stopping
      ensures |log| == |old(log)| + 2 && log[|old(log)|].question == WAIT(if state == ONLINE then 20 else 1)
      ensures Midway(log, if round == Checked(false) then fails + 1 else fails, online || round == Checked(true), stop)
      ensures Replies(1, calls, log, managed) == Replies(1, calls, old(log), managed)
      ensures |script| <= |old(script)| && (|script| < |old(script)| || stop) && (old(stopping) ==> stopping)
      ensures callsAtStop == if stopping && !old(stopping) then calls else old(callsAtStop)
    {
      hide LawfulV1, Replies, Midway, Round.Answers;
      var seconds := if state == ONLINE then CONNECTED_PING_TIME else DUPLEX_WAIT_PING_TIME;
      Wait(seconds);
      ghost var waited := log;
      RepliesNext(1, calls, old(log), waited[|old(log)|], managed);
      stop := IsStopping(HEAD_STOP);
      RepliesNext(1, calls, waited, Answer(HEAD_STOP, stop), managed);
      NextRound(t, fails, online, round, seconds, waited[|old(log)|].yes, stop);
    }

    /** The rounds are over: another call if the remote is still announced. */
    method LeaveRounds() returns (again: bool)
      requires Left(log)
      modifies this`script, this`stopping, this`callsAtStop, this`log
      ensures LawfulV1(log, again)
      ensures Replies(1, calls, log, managed) == Replies(1, calls, old(log), managed)
      ensures |script| <= |old(script)| && (again ==> !old(stopping))
      ensures old(stopping) ==> stopping
      ensures callsAtStop == if stopping && !old(stopping) then calls else old(callsAtStop)
    {
      hide LawfulV1, Replies, Left;
      var hasZcPresence := Ask(PRESENCE);
      RepliesNext(1, calls, old(log), Answer(PRESENCE, hasZcPresence), managed);
      LeftEnds(old(log), true);
      LeftEnds(old(log), false);
      if hasZcPresence {
        ghost var before := log;
        var stop := IsStopping(PRESENT_STOP);
        RepliesNext(1, calls, before, Answer(PRESENT_STOP, stop), managed);
        assert log == old(log) + [Answer(PRESENCE, true), Answer(PRESENT_STOP, stop)];
        return !stop;
      }
      again := false;
    }

    /** `stopVar.wait_for`: a request to stop may arrive meanwhile. */
    method Wait(seconds: nat)
      modifies this`script, this`stopping, this`callsAtStop, this`log
      ensures |script| <= |old(script)|
      ensures old(stopping) ==> stopping
      ensures callsAtStop == if stopping && !old(stopping) then calls else old(callsAtStop)
      ensures |log| == |old(log)| + 1 && log == old(log) + [Answer(WAIT(seconds), log[|old(log)|].yes)]
    {
      var ignored := Ask(WAIT(seconds));
    }

    /** The listener for disconnects ends by setting `stopping`; the loop joins it. */
    method JoinDisconnectListener()
      modifies this`stopping, this`callsAtStop
      ensures stopping && callsAtStop == if old(stopping) then old(callsAtStop) else calls
    {
      if !stopping {
        stopping, callsAtStop := true, calls;
      }
    }

    method SecureLoopV2() returns (again: bool)
      requires Valid() && api == 2
      modifies this
      ensures Valid() && calls == old(calls) + 1
      ensures |transcripts| > 0 && transcripts[..|transcripts| - 1] == old(transcripts)
      ensures transcripts[|transcripts| - 1].again == again
      ensures old(stopping) ==> stopping && callsAtStop == old(callsAtStop)
      ensures !old(stopping) && stopping ==> callsAtStop == calls
      ensures |script| < |old(script)| || stopping
      ensures |attempts| > 0 && attempts[..|attempts| - 1] == old(attempts)
      ensures !attempts[|attempts| - 1].Unconnected? ==> stopping
    {
      hide AllWrites, AllReplies, Attempt.Writes, WriteOf, Replies, LawfulV2;
      calls, log := calls + 1, [];
      var connected := Ask(CONNECT);
      assert [] + log == log;
      if connected {
        ghost var online;
        again, online := DuplexConnection();
        Finish(if online then Connection(1, true) else Refused, again);
      } else {
        again := Unreachable();
        Finish(Unconnected, again);
      }
    }

    /** The v2 connect failed. */
    method Unreachable() returns (again: bool)
      requires api == 2 && log == [Answer(CONNECT, false)]
      modifies this`script, this`stopping, this`callsAtStop, this`state, this`writes, this`log
      ensures LawfulV2(log, again)
      ensures writes == old(writes) + Replies(2, calls, log, managed)
      ensures writes == old(writes) + Unconnected.Writes(calls, managed)
      ensures |script| <= |old(script)| && (old(stopping) ==> stopping)
      ensures callsAtStop == if stopping && !old(stopping) then calls else old(callsAtStop)
    {
      hide Attempt.Writes, WriteOf, Replies, LawfulV2;
      SingleWrites(calls, managed);
      ConnectReplies(calls, managed);
      SetRemoteStatus(UNREACHABLE, calls);
      ghost var w;
      again, w := PauseV2(UNREACHABLE_STOP);
      assert log == AnswersV2(false, true, again, w);
      IsLawfulV2(false, true, again, w);
    }

    /** Waits, unless asked to stop. */
    method PauseV2(ghost place: Question) returns (again: bool, ghost w: bool)
      requires place == UNREACHABLE_STOP || place == DUPLEX_STOP
      modifies this`script, this`stopping, this`callsAtStop, this`log
      ensures log == old(log) + Paused(place, again, w)
      ensures Replies(api, calls, log, managed) == Replies(api, calls, old(log), managed)
      ensures |script| <= |old(script)| && (old(stopping) ==> stopping && !again)
      ensures callsAtStop == if stopping && !old(stopping) then calls else old(callsAtStop)
    {
      hide Replies;
      w := true;
      var stop := IsStopping(place);
      ghost var before := log;
      RepliesNext(api, calls, old(log), Answer(place, stop), managed);
      again := !stop;
      if again {
        Wait(V2_CHANNEL_RETRY_WAIT_TIME);
        w := log[|before|].yes;
        RepliesNext(api, calls, before, Answer(WAIT(10), w), managed);
        assert before + [Answer(WAIT(10), w)] == old(log) + Paused(place, again, w);
      }
    }

    /** An established v2 connection; joining the listener leaves `stopping` set. */
    method DuplexConnection() returns (again: bool, ghost online: bool)
      requires api == 2 && log == [Answer(CONNECT, true)]
      modifies this`script, this`stopping, this`callsAtStop, this`state, this`writes, this`log
      ensures LawfulV2(log, again)
      ensures writes == old(writes) + Replies(2, calls, log, managed)
      ensures writes == old(writes) + (if online then Connection(1, true) else Refused).Writes(calls, managed)
      ensures |script| <= |old(script)| && stopping
      ensures callsAtStop == if old(stopping) then old(callsAtStop) else calls
    {
      hide Attempt.Writes, WriteOf, Replies, LawfulV2, Count, Orderly, AllWrites, AllReplies;
      SingleWrites(calls, managed);
      SetRemoteStatus(AWAITING_DUPLEX, calls);
      var duplex := Ask(DUPLEX);
      DuplexReplies(calls, duplex, managed);
      online := duplex;
      if !duplex {
        SetRemoteStatus(UNREACHABLE, calls);
      } else {
        SetRemoteStatus(ONLINE, calls);
      }
      ghost var w;
      again, w := PauseV2(DUPLEX_STOP);
      assert log == AnswersV2(true, duplex, again, w);
      IsLawfulV2(true, duplex, again, w);
      JoinDisconnectListener();
    }

    /** The whole run of a handler thread. */
    method Process()
      requires Valid() && attempts == []
      requires api == 1 || api == 2
      modifies this
      ensures AllPossible(attempts, api) && calls == |attempts| == |transcripts|
      ensures writes == AllWrites(attempts, managed) + [WriteOf(0, OFFLINE, managed)] && state == OFFLINE
      ensures writes == AllReplies(api, transcripts, managed) + [WriteOf(0, OFFLINE, managed)]
      ensures forall i :: 0 <= i < |transcripts| ==> Lawful(api, transcripts[i])
      ensures api == 1 ==> calls > 0 && forall i :: 0 <= i < calls ==> (transcripts[i].again <==> i < calls - 1)
      ensures api == 2 ==> stopping
      ensures Orderly(writes[..|writes| - 1], managed)
      ensures stopping ==> calls <= callsAtStop + 1
      ensures api == 2 ==> forall i :: 0 <= i < |attempts| - 1 ==> attempts[i] == Unconnected
    {
      hide Lawful, AllWrites, AllReplies;
      if api == 1 {
        var again := SecureLoopV1();
        while again
          invariant Valid() && (stopping ==> callsAtStop == calls || (callsAtStop + 1 == calls && !again))
          invariant calls > 0 && transcripts[calls - 1].again == again
          invariant forall i :: 0 <= i < calls - 1 ==> transcripts[i].again
          decreases again, |script|
        {
          ghost var before := transcripts;
          again := SecureLoopV1();
          assert forall i :: 0 <= i < |before| ==> transcripts[i] == transcripts[..|transcripts| - 1][i] == before[i];
        }
        SetRemoteStatus(OFFLINE, 0);
      } else if api == 2 {
        var stop := IsStopping(LOOP_STOP);
        while !stop
          invariant Valid() && stop == stopping && (stopping ==> callsAtStop == calls)
          invariant forall i :: 0 <= i < |attempts| - 1 ==> attempts[i] == Unconnected
          invariant !stopping ==> forall i :: 0 <= i < |attempts| ==> attempts[i] == Unconnected
          decreases !stop, |script|
        {
          var ignored := SecureLoopV2();
          stop := IsStopping(LOOP_STOP);
        }
        SetRemoteStatus(OFFLINE, 0);
      }
      assert writes[..|writes| - 1] == AllWrites(attempts, managed);
      RunsAreOrderly(attempts, api, managed);
    }
  }
}
