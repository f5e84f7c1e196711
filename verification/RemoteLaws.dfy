/** What every run of turns keeps of a thread, and what the text fields of an announcement mean. */
module RemoteLaws {
  import opened RemoteManager

  // ----- threads -----------------------------------------------------------------------

  /** How far a thread has come. */
  function Rank(phase: Phase): nat {
    match phase
    case REGISTERING => 0
    case ANNOUNCING => 1
    case HANDLING => 2
    case LEAVING => 3
    case FINISHED => 4
  }

  /** A thread never goes back, keeps a request to stop, and gets one only from a broken
      version 2 connection. */
  lemma {:induction false} NeverBack(i: nat, t: Thread, script: seq<Turn>, exclusive: bool)
    ensures
      var after := RunOf(i, t, script, exclusive);
      && Rank(t.phase) <= Rank(after.phase)
      && (t.stopping ==> after.stopping)
      && (after.stopping && !t.stopping ==> t.apiVersion == 2 && Rank(after.phase) >= 2)
      && after.(phase := t.phase, stopping := t.stopping) == t
  {
    if script != [] {
      NeverBack(i, t, script[..|script| - 1], exclusive);
    }
  }

  /** A remote that is asked to stop while it registers never becomes visible. */
  lemma {:induction false} StoppedNeverShown(i: nat, t: Thread, script: seq<Turn>, exclusive: bool)
    requires t.stopping && t.phase in {REGISTERING, LEAVING, FINISHED}
    ensures RunOf(i, t, script, exclusive).phase in {REGISTERING, LEAVING, FINISHED}
    ensures RunOf(i, t, script, exclusive).stopping
  {
    if script != [] {
      StoppedNeverShown(i, t, script[..|script| - 1], exclusive);
    }
  }

  /** A version 1 remote that is announced stays in its handler until it is asked to stop. */
  lemma {:induction false} AnnouncedIsServed(i: nat, t: Thread, script: seq<Turn>, exclusive: bool)
    requires t.phase == HANDLING && t.apiVersion == 1 && t.hasZcPresence && !t.stopping
    ensures RunOf(i, t, script, exclusive) == t
  {
    if script != [] {
      AnnouncedIsServed(i, t, script[..|script| - 1], exclusive);
    }
  }

  /** A handler that is not asked to stop can come to its end exactly when its connection may
      break, as in version 2, or its remote is no longer announced. */
  lemma HandlingEndsExactly(i: nat, t: Thread)
    requires t.phase == HANDLING && (t.apiVersion == 1 || t.apiVersion == 2)
    ensures (exists script :: RunOf(i, t, script, false).phase == FINISHED)
       <==> t.stopping || t.apiVersion == 2 || !t.hasZcPresence
  {
    if t.stopping || !t.hasZcPresence || t.apiVersion == 2 {
      ThreeTurns(i, t, Disconnected, LastWrite, Ended, false);
    } else {
      forall script
        ensures RunOf(i, t, script, false).phase == HANDLING
      {
        AnnouncedIsServed(i, t, script, false);
      }
    }
  }

  // ----- numbers in text records -------------------------------------------------------

  function Decimal(n: nat): string {
    if n < 10 then ["0123456789"[n]] else Decimal(n / 10) + ["0123456789"[n % 10]]
  }

  predicate AllDigits(s: string) {
    forall k :: 0 <= k < |s| ==> IsDigit(s[k])
  }

  lemma {:induction false} DigitsJoin(a: string, b: string, value: nat)
    requires AllDigits(a)
    ensures Digits(a + b, value) == Digits(b, Digits(a, value))
  {
    if a == [] {
      assert a + b == b;
    } else {
      assert (a + b)[1..] == a[1..] + b;
      DigitsJoin(a[1..], b, 10 * value + (a[0] as int - '0' as int));
    }
  }

  lemma OneDigit(d: nat, value: nat)
    requires d < 10
    ensures IsDigit("0123456789"[d]) && Digits(["0123456789"[d]], value) == 10 * value + d
  {
    var c := "0123456789"[d];
    assert c as int == '0' as int + d;
    assert [c][1..] == [];
  }

  lemma {:induction false} DigitsOfDecimal(n: nat)
    ensures AllDigits(Decimal(n)) && Decimal(n) != [] && Digits(Decimal(n), 0) == n
  {
    hide Digits;
    OneDigit(n % 10, if n < 10 then 0 else n / 10);
    if n >= 10 {
      DigitsOfDecimal(n / 10);
      DigitsJoin(Decimal(n / 10), ["0123456789"[n % 10]], 0);
    }
  }

  /** A number in decimal notation is read back, whatever follows its digits; so is a negative
      one, and blanks before it do not matter. */
  lemma AtoiReads(n: nat, rest: string)
    requires rest == [] || !IsDigit(rest[0])
    ensures Atoi(Decimal(n) + rest) == n && Atoi("-" + (Decimal(n) + rest)) == -(n as int)
    ensures Atoi(" " + (Decimal(n) + rest)) == n
  {
    hide Decimal, Digits;
    var text := Decimal(n) + rest;
    DigitsOfDecimal(n);
    DigitsJoin(Decimal(n), rest, 0);
    NoMoreDigits(rest, n);
    assert IsDigit(text[0]);
    assert ("-" + text)[1..] == text && (" " + text)[1..] == text;
  }

  lemma NoMoreDigits(rest: string, value: nat)
    requires rest == [] || !IsDigit(rest[0])
    ensures Digits(rest, value) == value
  {
  }
}
