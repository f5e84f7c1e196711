/** The list of known remotes (`RemoteManager`) and the threads that serve them, as atomic steps
    between which the environment chooses. */
module RemoteManager {
  import opened RemoteHandler

  datatype IpPair = IpPair(valid: bool, ipv4: string, ipv6: string)
  datatype Key = Key(hostname: string, ips: IpPair)

  datatype MdnsServiceData = MdnsServiceData(
    name: string, port: int, ipv4: string, ipv6: string, txtRecords: map<string, string>)

  const FALLBACK_OS := "Linux"

  /** Where the thread of a remote is: registering, about to make the remote visible, in the
      handler, past its last status write, or at its end. */
  datatype Phase = REGISTERING | ANNOUNCING | HANDLING | LEAVING | FINISHED

  // ----- the threads -------------------------------------------------------------------

  datatype Thread = Thread(phase: Phase, stopping: bool, apiVersion: int, hasZcPresence: bool)

  /** What may happen next in a thread. */
  datatype Event =
    | CertReceived(certificate: string)
    | RegistrationFailed
    | Announced
    | Disconnected
    | LastWrite
    | Ended

  /** Making the remote visible and writing a status take the manager's mutex, so they wait while
      a call holds it exclusively. The handler leaves when it was asked to stop; in version 1 also
      when a ping fails and the remote is no longer announced. */
  predicate Enabled(t: Thread, event: Event, exclusive: bool) {
    match event
    case CertReceived(certificate) => t.phase == REGISTERING && certificate != []
    case RegistrationFailed => t.phase == REGISTERING
    case Announced => t.phase == ANNOUNCING && !exclusive
    case Disconnected => t.phase == HANDLING && t.apiVersion == 2
    case LastWrite => t.phase == HANDLING && !exclusive && (t.stopping || (t.apiVersion == 1 && !t.hasZcPresence))
    case Ended => t.phase == LEAVING
  }

  function Next(t: Thread, event: Event): Thread {
    match event
    case CertReceived(_) => t.(phase := if t.stopping then LEAVING else ANNOUNCING)
    case RegistrationFailed => t.(phase := LEAVING)
    case Announced => t.(phase := HANDLING)
    case Disconnected => t.(stopping := true)
    case LastWrite => t.(phase := LEAVING)
    case Ended => t.(phase := FINISHED)
  }

  function Taken(t: Thread, event: Event, exclusive: bool): Thread {
    if Enabled(t, event, exclusive) then Next(t, event) else t
  }

  /** A turn of the thread of one host. */
  datatype Turn = Turn(host: nat, event: Event)

  /** The thread of host i after a run of turns of all threads. */
  function RunOf(i: nat, t: Thread, script: seq<Turn>, exclusive: bool): Thread {
    if script == [] then t
    else
      var before, last := RunOf(i, t, script[..|script| - 1], exclusive), script[|script| - 1];
      if last.host == i then Taken(before, last.event, exclusive) else before
  }

  lemma {:induction false} RunJoin(i: nat, t: Thread, a: seq<Turn>, b: seq<Turn>, exclusive: bool)
    ensures RunOf(i, t, a + b, exclusive) == RunOf(i, RunOf(i, t, a, exclusive), b, exclusive)
  {
    hide Taken;
    if b == [] {
      assert a + b == a;
    } else {
      assert (a + b)[..|a + b| - 1] == a + b[..|b| - 1];
      RunJoin(i, t, a, b[..|b| - 1], exclusive);
    }
  }

  /** While a call holds the mutex exclusively, no run takes a thread that needs it any further. */
  lemma {:induction false} StuckWhileHeld(i: nat, t: Thread, script: seq<Turn>)
    requires t.phase in {ANNOUNCING, HANDLING}
    ensures RunOf(i, t, script, true).phase == t.phase
  {
    if script != [] {
      StuckWhileHeld(i, t, script[..|script| - 1]);
    }
  }

  /** Turns that bring a thread to its end, if there are any. */
  function EndingTurns(i: nat, t: Thread): seq<Turn> {
    match t.phase
    case REGISTERING => [Turn(i, RegistrationFailed), Turn(i, Ended)]
    case ANNOUNCING => [Turn(i, Announced), Turn(i, LastWrite), Turn(i, Ended)]
    case HANDLING => [Turn(i, LastWrite), Turn(i, Ended)]
    case LEAVING => [Turn(i, Ended)]
    case FINISHED => []
  }

  lemma TwoTurns(i: nat, t: Thread, a: Event, b: Event, exclusive: bool)
    ensures RunOf(i, t, [Turn(i, a)], exclusive) == Taken(t, a, exclusive)
    ensures RunOf(i, t, [Turn(i, a), Turn(i, b)], exclusive) == Taken(Taken(t, a, exclusive), b, exclusive)
  {
    hide Taken;
    assert [Turn(i, a), Turn(i, b)][..1] == [Turn(i, a)] && [Turn(i, a)][..0] == [];
  }

  lemma ThreeTurns(i: nat, t: Thread, a: Event, b: Event, c: Event, exclusive: bool)
    ensures RunOf(i, t, [Turn(i, a), Turn(i, b), Turn(i, c)], exclusive)
         == Taken(Taken(Taken(t, a, exclusive), b, exclusive), c, exclusive)
  {
    hide Taken;
    TwoTurns(i, t, a, b, exclusive);
    assert [Turn(i, a), Turn(i, b), Turn(i, c)][..2] == [Turn(i, a), Turn(i, b)];
  }

  lemma EndingTurnsEnd(i: nat, t: Thread, exclusive: bool)
    requires t.phase in {ANNOUNCING, HANDLING} ==> t.stopping && !exclusive
    ensures RunOf(i, t, EndingTurns(i, t), exclusive).phase == FINISHED
  {
    match t.phase {
      case REGISTERING => TwoTurns(i, t, RegistrationFailed, Ended, exclusive);
      case ANNOUNCING => ThreeTurns(i, t, Announced, LastWrite, Ended, exclusive);
      case HANDLING => TwoTurns(i, t, LastWrite, Ended, exclusive);
      case LEAVING => TwoTurns(i, t, Ended, Ended, exclusive);
      case FINISHED =>
    }
  }

  /** A thread can still end while a call holds the mutex exclusively exactly when it is not
      between registration and its last status write. */
  lemma CanEndExactly(i: nat, t: Thread)
    ensures (exists script :: RunOf(i, t, script, true).phase == FINISHED) <==> t.phase !in {ANNOUNCING, HANDLING}
  {
    if t.phase in {ANNOUNCING, HANDLING} {
      forall script
        ensures RunOf(i, t, script, true).phase == t.phase
      {
        StuckWhileHeld(i, t, script);
      }
    } else {
      EndingTurnsEnd(i, t, true);
    }
  }

  lemma {:induction false} OtherTurns(i: nat, t: Thread, script: seq<Turn>, exclusive: bool)
    requires forall k :: 0 <= k < |script| ==> script[k].host != i
    ensures RunOf(i, t, script, exclusive) == t
  {
    hide Taken;
    if script != [] {
      OtherTurns(i, t, script[..|script| - 1], exclusive);
    }
  }

  lemma TurnsOf(i: nat, t: Thread)
    ensures forall k :: 0 <= k < |EndingTurns(i, t)| ==> EndingTurns(i, t)[k].host == i
  {
  }

  /** With the mutex shared there is no deadlock: threads that were all asked to stop can always
      all end. */
  lemma {:induction false} AllCanEnd(threads: seq<Thread>) returns (script: seq<Turn>)
    requires forall i :: 0 <= i < |threads| ==> threads[i].stopping
    ensures forall k :: 0 <= k < |script| ==> script[k].host < |threads|
    ensures forall i :: 0 <= i < |threads| ==> RunOf(i, threads[i], script, false).phase == FINISHED
  {
    hide RunOf, EndingTurns;
    script := [];
    if threads != [] {
      var n := |threads| - 1;
      var earlier := AllCanEnd(threads[..n]);
      var turns := EndingTurns(n, threads[n]);
      TurnsOf(n, threads[n]);
      script := earlier + turns;
      forall i | 0 <= i <= n
        ensures RunOf(i, threads[i], script, false).phase == FINISHED
      {
        RunJoin(i, threads[i], earlier, turns, false);
        if i < n {
          assert threads[..n][i] == threads[i];
          OtherTurns(i, RunOf(i, threads[i], earlier, false), turns, false);
        } else {
          OtherTurns(n, threads[n], earlier, false);
          EndingTurnsEnd(n, threads[n], false);
        }
      }
    }
  }

  class RemoteInfo {
    const hostname: string
    const ips: IpPair
    var id: string
    var port: int
    var authPort: int
    var apiVersion: int
    var os: string
    var state: RemoteStatus
    var busy: bool
    var hasZcPresence: bool
    var visible: bool
    var stopping: bool
    var phase: Phase

    constructor (hostname: string, ips: IpPair)
      ensures this.hostname == hostname && this.ips == ips
    {
      this.hostname, this.ips := hostname, ips;
      id, os, port, authPort, apiVersion := "", "", 0, 0, 1;
      state, busy, hasZcPresence, visible, stopping, phase := OFFLINE, false, false, false, false, FINISHED;
    }

    function TheKey(): Key {
      Key(hostname, ips)
    }

    function TheThread(): Thread
      reads this
    {
      Thread(phase, stopping, apiVersion, hasZcPresence)
    }

    /** What a freshly started remote looks like. */
    ghost predicate Started(data: MdnsServiceData, srvType: string)
      reads this
    {
      && !visible && !stopping && !busy && hasZcPresence
      && id == StripService(data.name, srvType) && port == data.port
      && state == REGISTRATION && phase == REGISTERING
      && apiVersion == ApiVersion(data.txtRecords)
      && authPort == (if "auth-port" in data.txtRecords then Atoi(data.txtRecords["auth-port"]) % 65536 else data.port)
      && os == (if "os" in data.txtRecords then data.txtRecords["os"] else FALLBACK_OS)
    }

    method Fill(data: MdnsServiceData, srvType: string)
      modifies this
      ensures Started(data, srvType)
    {
      visible := false;
      id := StripService(data.name, srvType);
      port := data.port;
      state := REGISTRATION;
      busy := false;
      hasZcPresence := true;
      stopping := false;
      apiVersion := ApiVersion(data.txtRecords);
      if "auth-port" !in data.txtRecords {
        authPort := port;
      } else {
        authPort := Atoi(data.txtRecords["auth-port"]) % 65536;
      }
      if "os" !in data.txtRecords {
        os := FALLBACK_OS;
      } else {
        os := data.txtRecords["os"];
      }
      phase := REGISTERING;
    }
  }

  ghost predicate DistinctKeys(list: seq<RemoteInfo>) {
    forall i, j :: 0 <= i < j < |list| ==> list[i].TheKey() != list[j].TheKey()
  }

  lemma DistinctAppended(list: seq<RemoteInfo>, info: RemoteInfo)
    requires DistinctKeys(list) && forall x :: x in list ==> x.TheKey() != info.TheKey()
    ensures DistinctKeys(list + [info])
  {
  }

  lemma SameKeySameHost(list: seq<RemoteInfo>, a: RemoteInfo, b: RemoteInfo)
    requires DistinctKeys(list) && a in list && b in list && a.TheKey() == b.TheKey()
    ensures a == b
  {
    var i :| 0 <= i < |list| && list[i] == a;
    var j :| 0 <= j < |list| && list[j] == b;
    assert i == j;
  }

  lemma EndedStays(t: Thread, event: Event, exclusive: bool)
    ensures t.phase == FINISHED ==> Taken(t, event, exclusive) == t
  {
  }

  lemma {:induction false} KeepsStopping(i: nat, t: Thread, script: seq<Turn>, exclusive: bool)
    requires t.stopping
    ensures RunOf(i, t, script, exclusive).stopping
  {
    if script != [] {
      KeepsStopping(i, t, script[..|script| - 1], exclusive);
    }
  }

  lemma SomeMember(list: seq<RemoteInfo>)
    ensures list != [] ==> exists x :: x in list
  {
    if list != [] {
      assert list[0] in list;
    }
  }

  // ----- text fields -------------------------------------------------------------------

  predicate IsDigit(c: char) {
    '0' <= c <= '9'
  }

  function Digits(s: string, value: nat): nat {
    if s == [] || !IsDigit(s[0]) then value else Digits(s[1..], 10 * value + (s[0] as int - '0' as int))
  }

  /** `atoi`, for values that fit an int. */
  function Atoi(s: string): int
    decreases |s|
  {
    if s == [] then 0
    else if s[0] in " \t\n\r" then Atoi(s[1..])
    else if s[0] == '-' then -(Digits(s[1..], 0) as int)
    else if s[0] == '+' then Digits(s[1..], 0)
    else Digits(s, 0)
  }

  function ApiVersion(txt: map<string, string>): (version: int)
    ensures version == 1 || version == 2
    ensures version == 2 <==> "api-version" in txt && Atoi(txt["api-version"]) >= 2
  {
    if "api-version" !in txt then 1
    else
      var v := Atoi(txt["api-version"]);
      if v < 1 then 1 else if v > 2 then 2 else v
  }

  /** `stripServiceFromIdent`. */
  function StripService(ident: string, srvType: string): string {
    if |ident| <= |srvType| then ident
    else
      var subOffset := |ident| - |srvType|;
      if ident[subOffset..] == srvType && ident[subOffset - 1] == '.' then ident[..subOffset - 1] else ident
  }

  /** Stripping undoes appending the service type, and changes nothing that does not end in it. */
  lemma StripExactly(ident: string, srvType: string, host: string)
    ensures StripService(host + "." + srvType, srvType) == host
    ensures StripService(ident, srvType) != ident <==>
      exists h: string :: ident == h + "." + srvType
    ensures StripService(ident, srvType) != ident ==> ident == StripService(ident, srvType) + "." + srvType
  {
    var full := host + "." + srvType;
    assert full[|full| - |srvType|..] == srvType;
    assert full[..|full| - |srvType| - 1] == host;
    if StripService(ident, srvType) != ident {
      var h := StripService(ident, srvType);
      assert ident == ident[..|h|] + ident[|h|..|h| + 1] + ident[|h| + 1..];
      assert ident == h + "." + srvType;
    }
    forall h: string | ident == h + "." + srvType
      ensures StripService(ident, srvType) == h && h != ident
    {
      assert ident[|ident| - |srvType|..] == srvType;
      assert ident[..|ident| - |srvType| - 1] == h;
      assert |h| < |ident|;
    }
  }

  // ----- the manager -------------------------------------------------------------------

  class Manager {
    var hosts: seq<RemoteInfo>
    var hostSet: set<Key>
    var srvType: string
    /** The certificates that `AuthManager` decrypted, under the key of their remote. */
    var remoteCerts: map<Key, string>
    /** The live threads, each with the remote it serves. */
    var threads: seq<RemoteInfo>
    /** A call holds the mutex exclusively. */
    var exclusive: bool

    /** Keys are pairwise distinct and recorded; at most one thread runs per key, namely for the
        hosts whose thread has not ended; what is visible has a certificate. */
    ghost predicate Valid()
      reads this, hosts
    {
      && DistinctKeys(hosts) && DistinctKeys(threads)
      && (forall h :: h in hosts ==> h.TheKey() in hostSet)
      && (forall t :: t in threads ==> t in hosts)
      && (forall h :: h in hosts ==> (h in threads <==> h.phase != FINISHED))
      && (forall h :: h in hosts && (h.visible || h.phase == ANNOUNCING) ==> h.TheKey() in remoteCerts)
      && (forall h :: h in hosts ==> h.apiVersion == 1 || h.apiVersion == 2)
    }

    /** Every recorded key is listed; only `stop` ends this. */
    ghost predicate Complete()
      reads this`hosts, this`hostSet
    {
      forall key :: key in hostSet ==> Listed(key)
    }

    constructor ()
      ensures Valid() && Complete() && !exclusive
      ensures hosts == [] && threads == [] && hostSet == {} && remoteCerts == map[] && srvType == ""
    {
      hosts, hostSet, srvType, remoteCerts, threads, exclusive := [], {}, "", map[], [], false;
    }

    method SetServiceType(serviceType: string)
      requires serviceType != [] && !exclusive
      modifies this`srvType
      ensures srvType == if serviceType[|serviceType| - 1] == '.' then serviceType else serviceType + "."
    {
      srvType := serviceType;
      if srvType[|srvType| - 1] != '.' {
        srvType := srvType + ".";
      }
    }

    /** Whether the announcement is one of a real host. */
    static predicate IsReal(data: MdnsServiceData) {
      "type" in data.txtRecords && "hostname" in data.txtRecords && data.txtRecords["type"] == "real"
    }

    static function KeyOf(data: MdnsServiceData): Key
      requires IsReal(data)
    {
      Key(data.txtRecords["hostname"], IpPair(true, data.ipv4, data.ipv6))
    }

    /** `processRemoveHost` only clears the presence flag of the hosts with that id. */
    method ProcessRemoveHost(id: string)
      requires Valid() && !exclusive
      modifies hosts
      ensures Valid() && (old(Complete()) ==> Complete())
      ensures forall h :: h in hosts ==>
        && h.hasZcPresence == (old(h.hasZcPresence) && h.id != StripService(id, srvType))
        && h.id == old(h.id) && h.stopping == old(h.stopping) && h.phase == old(h.phase) && h.visible == old(h.visible)
    {
      var strippedId := StripService(id, srvType);
      for i := 0 to |hosts|
        invariant Valid() && (old(Complete()) ==> Complete())
        invariant forall h :: h in hosts ==>
          h.id == old(h.id) && h.stopping == old(h.stopping) && h.phase == old(h.phase) && h.visible == old(h.visible)
        invariant forall h :: h in hosts ==>
          h.hasZcPresence == (old(h.hasZcPresence) && !(h in hosts[..i] && h.id == strippedId))
      {
        if hosts[i].id == strippedId {
          hosts[i].hasZcPresence := false;
        }
      }
    }

    // ----- steps of the threads, chosen by the environment -----

    /** One turn of a live thread: nothing happens while its event has to wait. A received
        certificate is cached, and the remote becomes visible only after that. */
    method Take(info: RemoteInfo, event: Event)
      requires Valid() && info in threads
      modifies this`threads, this`remoteCerts, info`phase, info`stopping, info`visible, info`state
      ensures Valid()
      ensures info.TheThread() == Taken(old(info.TheThread()), event, exclusive)
      ensures forall t :: t != info ==> (t in threads <==> t in old(threads))
      ensures info.visible <==> old(info.visible) || (event == Announced && Enabled(old(info.TheThread()), event, exclusive))
      ensures remoteCerts ==
        if event.CertReceived? && Enabled(old(info.TheThread()), event, exclusive)
        then old(remoteCerts)[info.TheKey() := event.certificate] else old(remoteCerts)
    {
      hide DistinctKeys;
      if !Enabled(info.TheThread(), event, exclusive) {
        return;
      }
      match event {
        case CertReceived(certificate) =>
          remoteCerts := remoteCerts[info.TheKey() := certificate];
          info.phase := if info.stopping then LEAVING else ANNOUNCING;
        case RegistrationFailed =>
          info.phase := LEAVING;
        case Announced =>
          info.visible := true;
          info.state := INIT_CONNECTING;
          info.phase := HANDLING;
        case Disconnected =>
          info.stopping := true;
        case LastWrite =>
          info.state := OFFLINE;
          info.phase := LEAVING;
        case Ended =>
          EndThread(info);
      }
    }

    method EndThread(info: RemoteInfo)
      requires Valid() && info in threads
      modifies this`threads, info`phase
      ensures Valid() && info !in threads && info.phase == FINISHED
      ensures |threads| == |old(threads)| - 1 && forall t :: t != info ==> (t in threads <==> t in old(threads))
    {
      var position := PositionOf(info);
      info.phase := FINISHED;
      threads := threads[..position] + threads[position + 1..];
      assert old(threads) == old(threads)[..position] + [info] + old(threads)[position + 1..];
    }

    lemma HostFacts()
      requires Valid()
      ensures forall i, j :: 0 <= i < j < |hosts| ==> hosts[i] != hosts[j]
      ensures forall h :: h in hosts ==> (h in threads <==> h.phase != FINISHED)
    {
    }

    /** A run of turns; those of threads that have ended do nothing. */
    method RunTurns(script: seq<Turn>)
      requires Valid()
      modifies this`threads, this`remoteCerts, hosts`phase, hosts`stopping, hosts`visible, hosts`state
      ensures Valid() && (old(Complete()) ==> Complete())
      ensures forall i :: 0 <= i < |hosts| ==> hosts[i].TheThread() == RunOf(i, old(hosts[i].TheThread()), script, exclusive)
    {
      hide Taken, DistinctKeys, Valid, Complete;
      for n := 0 to |script|
        invariant Valid() && (old(Complete()) ==> Complete())
        invariant forall i :: 0 <= i < |hosts| ==>
          hosts[i].TheThread() == RunOf(i, old(hosts[i].TheThread()), script[..n], exclusive)
      {
        var turn := script[n];
        assert script[..n + 1][..n] == script[..n];
        if turn.host < |hosts| {
          HostFacts();
          if hosts[turn.host] in threads {
            Take(hosts[turn.host], turn.event);
          } else {
            EndedStays(hosts[turn.host].TheThread(), turn.event, exclusive);
          }
        }
      }
      assert script[..|script|] == script;
    }

    method RequestStop()
      requires Valid()
      modifies hosts`stopping
      ensures Valid()
      ensures forall h :: h in hosts ==> h.TheThread() == old(h.TheThread()).(stopping := true)
    {
      for i := 0 to |hosts|
        invariant Valid()
        invariant forall h :: h in hosts ==> h.TheThread() == old(h.TheThread()).(stopping := h.stopping)
        invariant forall k :: 0 <= k < i ==> hosts[k].stopping
      {
        hosts[i].stopping := true;
      }
    }

    /** `stop` during a run of turns: it asks every thread to stop and returns when all have
        ended; then the list is empty, but the record of keys stays. */
    method Stop(script: seq<Turn>) returns (returned: bool)
      requires Valid() && !exclusive
      modifies this`hosts, this`threads, this`remoteCerts, hosts
      ensures Valid() && hostSet == old(hostSet)
      ensures returned <==> forall i :: 0 <= i < |old(hosts)| ==>
        RunOf(i, old(hosts[i].TheThread()).(stopping := true), script, false).phase == FINISHED
      ensures returned ==> hosts == [] && threads == []
      ensures !returned ==> hosts == old(hosts) && threads != [] && forall h :: h in hosts ==> h.stopping
    {
      RequestStop();
      RunTurns(script);
      StoppingStays(script);
      SomeMember(threads);
      returned := threads == [];
      if returned {
        hosts := [];
      }
    }

    lemma StoppingStays(script: seq<Turn>)
      ensures forall i, t: Thread :: t.stopping ==> RunOf(i, t, script, false).stopping
    {
      forall i, t: Thread | t.stopping
        ensures RunOf(i, t, script, false).stopping
      {
        KeepsStopping(i, t, script, false);
      }
    }

    method PositionOf(info: RemoteInfo) returns (position: nat)
      ensures position <= |threads|
      ensures position < |threads| ==> threads[position] == info
      ensures position == |threads| <==> info !in threads
    {
      position := 0;
      while position < |threads| && threads[position] != info
        invariant position <= |threads| && info !in threads[..position]
      {
        position := position + 1;
      }
    }

    /** Whether a host of the key is already listed. */
    ghost predicate Listed(key: Key)
      reads this`hosts
    {
      exists h :: h in hosts && h.TheKey() == key
    }

    /** `processAddHost`, which holds the mutex exclusively. A listed host that is not stopping
        is only woken up; one that is stopping is joined and then restarted in place; an unknown
        one is added; a recorded but unlisted one is ignored. While the call joins, the other
        threads take the turns of the script; it returns exactly if the joined one ended. */
    method ProcessAddHost(data: MdnsServiceData, script: seq<Turn>) returns (returned: bool)
      requires Valid() && !exclusive
      modifies this`hosts, this`hostSet, this`threads, this`remoteCerts, this`exclusive, hosts
      ensures Valid() && exclusive == !returned
      ensures old(hosts) <= hosts && (old(Complete()) ==> Complete())
      ensures !IsReal(data) ==> hosts == old(hosts) && threads == old(threads) && hostSet == old(hostSet) && returned
      ensures IsReal(data) ==> hostSet == old(hostSet) + {KeyOf(data)}
      ensures IsReal(data) && KeyOf(data) !in old(hostSet) ==>
        && returned && |hosts| == old(|hosts|) + 1 && fresh(hosts[|hosts| - 1])
        && threads == old(threads) + [hosts[|hosts| - 1]] && hosts[|hosts| - 1].Started(data, srvType)
      ensures IsReal(data) && KeyOf(data) in old(hostSet) ==> hosts == old(hosts)
      ensures IsReal(data) && KeyOf(data) in old(hostSet) && !old(Listed(KeyOf(data))) ==> returned && threads == old(threads)
      ensures IsReal(data) ==> forall i :: 0 <= i < |old(hosts)| && old(hosts)[i].TheKey() == KeyOf(data) ==>
        var h, joined := old(hosts)[i], RunOf(i, old(hosts[i].TheThread()), script, true);
        && (!old(h.stopping) ==> returned && threads == old(threads) && h.TheThread() == old(h.TheThread()))
        && (old(h.stopping) ==> (returned <==> joined.phase == FINISHED))
        && (old(h.stopping) && returned ==> h in threads && h.Started(data, srvType))
        && (old(h.stopping) && !returned ==> h in threads && h.TheThread() == joined)
    {
      hide RunOf, DistinctKeys, StripService, ApiVersion, RemoteInfo.Started, RemoteInfo.TheThread;
      if "type" !in data.txtRecords {
        return true;
      }
      if "hostname" !in data.txtRecords {
        return true;
      }
      if data.txtRecords["type"] != "real" {
        return true;
      }
      if KeyOf(data) !in hostSet {
        AddUnknown(data);
        returned := true;
      } else {
        returned := AddKnown(data, script);
      }
    }

    method AddUnknown(data: MdnsServiceData)
      requires Valid() && IsReal(data) && KeyOf(data) !in hostSet
      modifies this`hosts, this`hostSet, this`threads
      ensures Valid() && (old(Complete()) ==> Complete())
      ensures hostSet == old(hostSet) + {KeyOf(data)}
      ensures |hosts| == old(|hosts|) + 1 && old(hosts) <= hosts && fresh(hosts[|hosts| - 1])
      ensures threads == old(threads) + [hosts[|hosts| - 1]] && hosts[|hosts| - 1].Started(data, srvType)
    {
      hide StripService, ApiVersion, RemoteInfo.Started;
      var info := new RemoteInfo(data.txtRecords["hostname"], IpPair(true, data.ipv4, data.ipv6));
      hostSet := hostSet + {info.TheKey()};
      Start(info, data, true);
    }

    /** A recorded key: its host is looked for, and joined and restarted if it is stopping. */
    method AddKnown(data: MdnsServiceData, script: seq<Turn>) returns (returned: bool)
      requires Valid() && IsReal(data) && KeyOf(data) in hostSet && !exclusive
      modifies this`threads, this`remoteCerts, this`exclusive, this`hosts, hosts
      ensures Valid() && (old(Complete()) ==> Complete()) && exclusive == !returned && hosts == old(hosts)
      ensures !old(Listed(KeyOf(data))) ==> returned && threads == old(threads)
      ensures forall i :: 0 <= i < |hosts| && hosts[i].TheKey() == KeyOf(data) ==>
        var h, joined := hosts[i], RunOf(i, old(hosts[i].TheThread()), script, true);
        && (!old(h.stopping) ==> returned && threads == old(threads) && h.TheThread() == old(h.TheThread()))
        && (old(h.stopping) ==> (returned <==> joined.phase == FINISHED))
        && (old(h.stopping) && returned ==> h in threads && h.Started(data, srvType))
        && (old(h.stopping) && !returned ==> h in threads && h.TheThread() == joined)
    {
      hide RunOf, DistinctKeys, StripService, ApiVersion, RemoteInfo.Started;
      var position := FindHost(KeyOf(data));
      if position == |hosts| {
        return true;
      }
      var found := hosts[position];
      if !found.stopping {
        return true;
      }
      exclusive := true;
      RunTurns(script);
      if found in threads {
        return false;
      }
      exclusive := false;
      Start(found, data, false);
      returned := true;
    }

    /** The loop over the hosts: the position of the one with the key, of which there is at most
        one. */
    method FindHost(pair: Key) returns (position: nat)
      requires Valid()
      ensures position <= |hosts| && (position == |hosts| <==> !Listed(pair))
      ensures position < |hosts| ==> hosts[position].TheKey() == pair
      ensures forall i :: 0 <= i < |hosts| && hosts[i].TheKey() == pair ==> i == position
    {
      position := |hosts|;
      for i := 0 to |hosts|
        invariant position <= |hosts|
        invariant position == |hosts| ==> forall k :: 0 <= k < i ==> hosts[k].TheKey() != pair
        invariant position < |hosts| ==> hosts[position].TheKey() == pair
      {
        if hosts[i].TheKey() == pair {
          position := i;
        }
      }
    }

    method Start(info: RemoteInfo, data: MdnsServiceData, pushBack: bool)
      requires Valid() && info.TheKey() in hostSet
      requires if pushBack then forall h :: h in hosts ==> h.TheKey() != info.TheKey() else info in hosts && info !in threads
      modifies this`hosts, this`threads, info
      ensures Valid() && info.Started(data, srvType)
      ensures hosts == old(hosts) + if pushBack then [info] else []
      ensures threads == old(threads) + [info]
    {
      info.Fill(data, srvType);
      hide DistinctKeys;
      forall t | t in threads
        ensures t.TheKey() != info.TheKey()
      {
        if t.TheKey() == info.TheKey() && !pushBack {
          SameKeySameHost(hosts, t, info);
        }
      }
      DistinctAppended(threads, info);
      threads := threads + [info];
      if pushBack {
        DistinctAppended(hosts, info);
        hosts := hosts + [info];
      }
    }
  }

  lemma ConnectionBreaks(t: Thread, certificate: string)
    requires t.phase == REGISTERING && !t.stopping && t.apiVersion == 2 && certificate != []
    ensures
      var after := RunOf(0, t, [Turn(0, CertReceived(certificate)), Turn(0, Announced), Turn(0, Disconnected)], false);
      after.phase == HANDLING && after.stopping
  {
    ThreeTurns(0, t, CertReceived(certificate), Announced, Disconnected, false);
  }

  /** A version 2 remote that was announced, became visible, and lost its connection. */
  method BrokenConnection(data: MdnsServiceData, certificate: string) returns (manager: Manager)
    requires Manager.IsReal(data) && ApiVersion(data.txtRecords) == 2 && certificate != []
    ensures fresh(manager) && manager.Valid() && !manager.exclusive && |manager.hosts| == 1 && fresh(manager.hosts[0])
    ensures manager.hosts[0].TheKey() == Manager.KeyOf(data)
    ensures manager.hosts[0].phase == HANDLING && manager.hosts[0].stopping
  {
    hide RunOf, StripService, ApiVersion, DistinctKeys, Manager.Complete;
    manager := new Manager();
    var ignored := manager.ProcessAddHost(data, []);
    ConnectionBreaks(manager.hosts[0].TheThread(), certificate);
    manager.RunTurns([Turn(0, CertReceived(certificate)), Turn(0, Announced), Turn(0, Disconnected)]);
  }

  /** Announcing such a remote again blocks the manager for good: the call that joins its thread
      does not return, whatever turns the threads take while it waits and later. */
  method BrokenConnectionBlocks(data: MdnsServiceData, certificate: string, script: seq<Turn>, later: seq<Turn>)
    returns (manager: Manager, returned: bool)
    requires Manager.IsReal(data) && ApiVersion(data.txtRecords) == 2 && certificate != []
    ensures fresh(manager) && manager.Valid() && !returned && manager.exclusive && |manager.hosts| == 1
    ensures manager.hosts[0] in manager.threads && manager.hosts[0].phase == HANDLING
  {
    hide RunOf, StripService, ApiVersion, DistinctKeys, Manager.Complete;
    manager := BrokenConnection(data, certificate);
    StuckWhileHeld(0, manager.hosts[0].TheThread(), script);
    returned := manager.ProcessAddHost(data, script);
    StuckWhileHeld(0, manager.hosts[0].TheThread(), later);
    manager.RunTurns(later);
  }
}
