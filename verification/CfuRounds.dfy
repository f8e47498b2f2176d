/**
 * The round loop of the firmware update tool: odd rounds only offer the files, even rounds offer them
 * and send the payloads accepted, until a device with one bank accepts none.
 */
module CfuRounds {
  import opened Arith
  import opened Lists

  /** One of the twenty entries: whether it has a payload file, and whether that has been downloaded. */
  datatype File = File(present: bool, boot: bool, appData1: bool, downloaded: bool)

  datatype Reply = Accepted | Refused | Broken

  /**
   * The device, by the number of the round and the index of the file: whether it reports a version, and then
   * whether it has two banks; its answers to offers; whether a payload arrives; whether it comes back after a reboot.
   */
  datatype Device = Device(
    versions: nat -> Option<bool>, offers: (nat, nat) -> Reply, payloads: (nat, nat) -> bool, reboots: nat -> bool)
  {
    function Version(n: nat): Option<bool> { versions(n) }

    function Offer(n: nat, i: nat): Reply { offers(n, i) }

    predicate Payload(n: nat, i: nat) { payloads(n, i) }

    predicate Reboot(n: nat) { reboots(n) }

    /** The offer of file i in round n, or the payload an even round sends for it, does not get through. */
    predicate Failed(n: nat, i: nat) {
      Offer(n, i) == Broken || (n % 2 == 0 && Offer(n, i) == Accepted && !Payload(n, i))
    }
  }

  datatype Outcome = Complete | NoVersion | NotReached | Running

  /** Numbers below n that are all different are at most n. */
  lemma {:induction false} Pigeons(q: seq<nat>, n: nat)
    requires Distinct(q) && forall i :: 0 <= i < |q| ==> q[i] < n
    ensures |q| <= n
    decreases n
  {
    if q != [] {
      assert q[0] < n;
      if k :| 0 <= k < |q| && q[k] == n - 1 {
        Pigeons(q[..k] + q[k + 1..], n - 1);
      } else {
        Pigeons(q, n - 1);
      }
    }
  }

  /** The files are the same but for marks added. */
  ghost predicate Marked(f: seq<File>, g: seq<File>) {
    |f| == |g| && forall i :: 0 <= i < |f| ==> g[i] == f[i] || g[i] == f[i].(downloaded := true)
  }

  // ---- what each round does --------------------------------------------------------------------

  /** The offer of a file is due in a round with that number, which has 8 bits. */
  predicate DueIn(f: File, force: bool, dual: bool, round: nat) {
    && f.present
    && (force ==> !f.downloaded)
    && !(f.boot && round > 2)
    && !(!dual && round > 2 && f.appData1)
  }

  /** The number of the n-th round, in 8 bits. */
  function Number(n: nat): nat { n % 256 }

  /** The device has two banks, as it said in the last round that had the number 1. */
  predicate DualAt(d: Device, n: nat)
    requires n >= 1
  {
    d.Version(n - (n - 1) % 256) == Some(true)
  }

  /** File i is offered in the n-th round. */
  predicate Offered(d: Device, force: bool, files: seq<File>, n: nat, i: nat)
    requires n >= 1 && i < |files|
  {
    DueIn(files[i], force, DualAt(d, n), Number(n))
  }

  /** A boot file, or on a device with one bank an app data file, that is there and may still be offered. */
  predicate Early(d: Device, force: bool, f: File, n: nat)
    requires n >= 1
  {
    f.present && (force ==> !f.downloaded) && (f.boot || (f.appData1 && !DualAt(d, n)))
  }

  /**
   * Such a file is offered in rounds 1 and 2 and in no later one of the first 255; the 8-bit number lets it through
   * again in rounds 256 to 258, and so on. A file of another kind is offered in every round.
   */
  lemma OfferedWhen(d: Device, force: bool, files: seq<File>, n: nat, i: nat)
    requires n >= 1 && i < |files|
    ensures Early(d, force, files[i], n) ==>
              && (n <= 255 ==> (Offered(d, force, files, n, i) <==> n <= 2))
              && (Offered(d, force, files, n, i) <==> exists k :: n == 256 * k || n == 256 * k + 1 || n == 256 * k + 2)
    ensures !Early(d, force, files[i], n) ==>
              (Offered(d, force, files, n, i) <==> files[i].present && (force ==> !files[i].downloaded))
  {
    hide DualAt;
    DivMod(n, 256);
    if n % 256 <= 2 {
      assert n == 256 * (n / 256) || n == 256 * (n / 256) + 1 || n == 256 * (n / 256) + 2;
    }
  }

  /** Nothing offered fails. */
  ghost predicate Clean(d: Device, force: bool, files: seq<File>, n: nat)
    requires n >= 1
  {
    forall i :: 0 <= i < |files| && Offered(d, force, files, n, i) ==> !d.Failed(n, i)
  }

  /** Some file offered is accepted. */
  ghost predicate Takes(d: Device, force: bool, files: seq<File>, n: nat)
    requires n >= 1
  {
    exists i :: 0 <= i < |files| && Offered(d, force, files, n, i) && d.Offer(n, i) == Accepted
  }

  /** The files before file k that are offered and accepted in the n-th round, in order. */
  ghost function Picks(d: Device, force: bool, files: seq<File>, n: nat, k: nat): seq<nat>
    requires n >= 1 && k <= |files|
  {
    if k == 0 then []
    else Picks(d, force, files, n, k - 1)
         + if Offered(d, force, files, n, k - 1) && d.Offer(n, k - 1) == Accepted then [k - 1] else []
  }

  lemma {:induction false} PicksTake(d: Device, force: bool, files: seq<File>, n: nat, k: nat)
    requires n >= 1 && k <= |files|
    ensures forall i :: 0 <= i < k && Offered(d, force, files, n, i) && d.Offer(n, i) == Accepted ==>
              Picks(d, force, files, n, k) != []
    ensures Picks(d, force, files, n, k) != [] ==>
              exists i :: 0 <= i < k && Offered(d, force, files, n, i) && d.Offer(n, i) == Accepted
  {
    if k > 0 { PicksTake(d, force, files, n, k - 1); }
  }

  /** The files with those before file k marked that the n-th round, an even one, sends. */
  ghost function MarkTo(d: Device, force: bool, files: seq<File>, n: nat, k: nat): (g: seq<File>)
    requires n >= 1 && k <= |files|
    ensures |g| == |files| && Marked(files, g) && forall i :: k <= i < |files| ==> g[i] == files[i]
  {
    if k == 0 then files
    else
      var g := MarkTo(d, force, files, n, k - 1);
      if Offered(d, force, files, n, k - 1) && d.Offer(n, k - 1) == Accepted
      then g[k - 1 := g[k - 1].(downloaded := true)] else g
  }

  lemma NoneYet(d: Device, force: bool, files: seq<File>, n: nat)
    requires n >= 1
    ensures MarkTo(d, force, files, n, 0) == files && Picks(d, force, files, n, 0) == []
  {}

  lemma OneMore(d: Device, force: bool, files: seq<File>, n: nat, k: nat)
    requires n >= 1 && k < |files|
    ensures var taken, g := Offered(d, force, files, n, k) && d.Offer(n, k) == Accepted, MarkTo(d, force, files, n, k);
            && |g| == |files| && g[k] == files[k]
            && MarkTo(d, force, files, n, k + 1) == (if taken then g[k := g[k].(downloaded := true)] else g)
            && Picks(d, force, files, n, k + 1) == Picks(d, force, files, n, k) + if taken then [k] else []
  {}

  ghost function MarkSent(d: Device, force: bool, files: seq<File>, n: nat): (g: seq<File>)
    requires n >= 1
    ensures |g| == |files| && Marked(files, g)
  {
    MarkTo(d, force, files, n, |files|)
  }

  /** The files in front of the n-th round. */
  ghost function FilesAt(d: Device, force: bool, files: seq<File>, n: nat): (g: seq<File>)
    requires n >= 1
    ensures |g| == |files|
  {
    if n == 1 then files
    else if n % 2 == 1 then MarkSent(d, force, FilesAt(d, force, files, n - 1), n - 1)
    else FilesAt(d, force, files, n - 1)
  }

  lemma FirstFiles(d: Device, force: bool, files: seq<File>)
    ensures FilesAt(d, force, files, 1) == files
  {}

  /** The n-th round, with these files, is not the last. */
  ghost predicate RoundGoes(d: Device, force: bool, files: seq<File>, n: nat)
    requires n >= 1
  {
    && Clean(d, force, files, n)
    && if n % 2 == 1 then d.Version(n).Some? else !DualAt(d, n) && Takes(d, force, files, n) && d.Reboot(n)
  }

  /** The n-th round is not the last, if it comes to it. */
  ghost predicate Goes(d: Device, force: bool, files: seq<File>, n: nat)
    requires n >= 1
  {
    RoundGoes(d, force, FilesAt(d, force, files, n), n)
  }

  /** How a run ends with the n-th round. */
  ghost function EndAt(d: Device, force: bool, files: seq<File>, n: nat): Outcome
    requires n >= 1
  {
    var f := FilesAt(d, force, files, n);
    if n % 2 == 1 then if d.Version(n).None? then NoVersion else NotReached
    else if !Clean(d, force, f, n) then NotReached
    else if DualAt(d, n) || !Takes(d, force, f, n) then Complete
    else NoVersion
  }

  /** A device that never refuses or fails anything, with one bank. */
  ghost predicate Eager(d: Device) {
    && (forall n :: d.Version(n) == Some(false)) && (forall n :: d.Reboot(n))
    && (forall n, i :: d.Offer(n, i) == Accepted) && (forall n, i :: d.Payload(n, i))
    && (forall n, i :: !d.Failed(n, i))
  }

  /** A file that is offered in every round. */
  predicate Always(f: File) { f.present && !f.boot && !f.appData1 }

  /** Such a device keeps a run without force going, if some file is offered in every round. */
  lemma EagerGoes(d: Device, files: seq<File>, i: nat, n: nat)
    requires n >= 1 && Eager(d) && i < |files| && Always(files[i])
    ensures RoundGoes(d, false, files, n)
  {
    assert d.Version(n - (n - 1) % 256) == Some(false) && d.Version(n) == Some(false);
    assert Offered(d, false, files, n, i) && d.Offer(n, i) == Accepted && d.Reboot(n);
  }

  lemma {:induction false} MarkedAt(d: Device, force: bool, files: seq<File>, n: nat)
    requires n >= 1
    ensures Marked(files, FilesAt(d, force, files, n))
  {
    if n > 1 { MarkedAt(d, force, files, n - 1); }
  }

  /** Without force what has been downloaded does not matter: a round goes on exactly as it would at first. */
  lemma UnforcedGoes(d: Device, files: seq<File>, n: nat)
    requires n >= 1
    ensures Goes(d, false, files, n) <==> RoundGoes(d, false, files, n)
  {
    MarkedAt(d, false, files, n);
    var f := FilesAt(d, false, files, n);
    forall i | 0 <= i < |files| ensures Offered(d, false, f, n, i) <==> Offered(d, false, files, n, i) {
      assert f[i] == files[i] || f[i] == files[i].(downloaded := true);
    }
  }

  lemma Unforced(d: Device, files: seq<File>)
    ensures forall n :: n >= 1 ==> (Goes(d, false, files, n) <==> RoundGoes(d, false, files, n))
    ensures Eager(d) && (exists i :: 0 <= i < |files| && Always(files[i])) ==>
              forall n :: n >= 1 ==> RoundGoes(d, false, files, n)
  {
    hide RoundGoes, Eager, Always;
    forall n | n >= 1 ensures Goes(d, false, files, n) <==> RoundGoes(d, false, files, n) { UnforcedGoes(d, files, n); }
    if i :| Eager(d) && 0 <= i < |files| && Always(files[i]) {
      forall n | n >= 1 ensures RoundGoes(d, false, files, n) { EagerGoes(d, files, i, n); }
    }
  }

  lemma NextNumber(n: nat)
    ensures Number(n) < 256 && Number(n) % 2 == n % 2 && Number(n + 1) == (Number(n) + 1) % 256
    ensures n < 256 ==> Number(n) == n
  {
    var q, r := n / 256, n % 256;
    DivMod(n, 256);
    assert n == r + 128 * q * 2 && n + 1 == r + 1 + q * 256;
    ModShift(r, 128 * q, 2);
    ModShift(r + 1, q, 256);
  }

  /** Only a round with the number 1 changes what is known of the banks. */
  lemma BanksAt(d: Device, n: nat)
    requires n >= 1
    ensures Number(n) == 1 ==> (DualAt(d, n) <==> d.Version(n) == Some(true))
    ensures Number(n) != 1 && n > 1 ==> DualAt(d, n) == DualAt(d, n - 1)
    ensures n == 1 || n == 2 ==> (DualAt(d, n) <==> d.Version(1) == Some(true))
  {
    var q, r := n / 256, n % 256;
    DivMod(n, 256);
    if r >= 1 {
      ModShift(r - 1, q, 256);
      ModSmall(r - 1, 256);
      assert (n - 1) % 256 == r - 1;
    } else {
      ModShift(255, q - 1, 256);
      assert (n - 1) % 256 == 255;
    }
    if n > 1 && r != 1 {
      if r >= 2 {
        ModShift(r - 2, q, 256);
        ModSmall(r - 2, 256);
        assert (n - 2) % 256 == r - 2;
      } else {
        ModShift(254, q - 1, 256);
        assert (n - 2) % 256 == 254;
      }
    }
  }

  class Updater {
    const force: bool
    const device: Device
    var files: seq<File>
    /** An 8-bit counter, from 1. */
    var round: nat
    var dual: bool
    var count: nat
    /** The indices of the offers made and of the payloads sent, in order. */
    var offered: seq<nat>
    var sent: seq<nat>

    constructor (files: seq<File>, force: bool, device: Device)
      ensures this.files == files && this.force == force && this.device == device && round == 1 && sent == []
    {
      this.files, this.force, this.device := files, force, device;
      round, dual, count, offered, sent := 1, false, 0, [], [];
    }

    /** The offer of a file is due in this round. */
    predicate Due(f: File)
      reads this
    {
      DueIn(f, force, dual, round)
    }

    /** Payloads sent are of files marked as downloaded, and with force no file twice. */
    ghost predicate Valid()
      reads `files, `round, `sent
    {
      && |files| == 20 && round < 256
      && (forall i :: 0 <= i < |sent| ==> sent[i] < 20 && files[sent[i]].downloaded)
      && (force ==> Distinct(sent))
    }

    /** The counter. */
    method NextRound()
      requires Valid()
      modifies `round
      ensures Valid() && round == (old(round) + 1) % 256
    {
      hide Distinct;
      round := (round + 1) % 256;
    }

    lemma Sized()
      requires Valid()
      ensures |files| == 20
    {}

    lemma Few()
      requires Valid()
      ensures force ==> Distinct(sent) && |sent| <= 20
    {
      if force { Pigeons(sent, 20); }
    }

    /** An odd round, the n-th overall. */
    method JustOffer(n: nat) returns (outcome: Outcome)
      requires Valid() && n % 2 == 1 && round == Number(n) && (round != 1 ==> dual == DualAt(device, n))
      modifies `dual, `offered
      ensures Valid() && (outcome == Running ==> dual == DualAt(device, n))
      ensures outcome == Running <==> RoundGoes(device, force, files, n)
      ensures outcome != Running ==> outcome == if device.Version(n).None? then NoVersion else NotReached
      ensures outcome == Running ==> old(offered) <= offered
      ensures outcome == Running ==> forall i :: 0 <= i < 20 ==> (i in offered[|old(offered)|..] <==> Due(files[i]))
    {
      hide Valid, DueIn, DualAt, Number;
      Sized();
      var version := device.Version(n);
      if version.None? { return NoVersion; }
      if round == 1 { dual := version.value; }
      BanksAt(device, n);
      var index := 0;
      while index < 20
        invariant 0 <= index <= 20 && old(offered) <= offered && dual == DualAt(device, n)
        invariant forall i :: i in offered[|old(offered)|..] <==> 0 <= i < index && Due(files[i])
        invariant forall i :: 0 <= i < index && Offered(device, force, files, n, i) ==> !device.Failed(n, i)
      {
        if Due(files[index]) {
          assert (offered + [index])[|old(offered)|..] == offered[|old(offered)|..] + [index];
          offered := offered + [index];
          assert Offered(device, force, files, n, index);
          if device.Offer(n, index) == Broken {
            assert device.Failed(n, index);
            return NotReached;
          }
        }
        index := index + 1;
      }
      outcome := Running;
    }

    /** One file of an even round: if it is accepted, it is sent and marked. */
    method SendOne(n: nat, index: nat) returns (ok: bool)
      requires Valid() && index < 20 && n % 2 == 0
      modifies `files, `count, `offered, `sent
      ensures Valid() && offered == if Due(old(files)[index]) then old(offered) + [index] else old(offered)
      ensures ok <==> (Due(old(files)[index]) ==> !device.Failed(n, index))
      ensures var took := Due(old(files)[index]) && device.Offer(n, index) == Accepted;
              && (ok ==> sent == if took then old(sent) + [index] else old(sent))
              && (ok ==> count == if took then old(count) + 1 else old(count))
              && files == if took && ok then old(files)[index := old(files)[index].(downloaded := true)] else old(files)
    {
      ok := true;
      if Due(files[index]) {
        offered := offered + [index];
        var reply := device.Offer(n, index);
        if reply == Broken { return false; }
        if reply == Accepted {
          count := count + 1;
          if !device.Payload(n, index) { return false; }
          assert force ==> forall i :: 0 <= i < |sent| ==> sent[i] != index;
          files := files[index := files[index].(downloaded := true)];
          sent := sent + [index];
        }
      }
    }

    /** The loop of an even round, the n-th overall: the payloads sent are those of the files due and accepted. */
    method OfferAndSend(n: nat) returns (ok: bool)
      requires Valid() && n >= 1 && n % 2 == 0 && round == Number(n) && dual == DualAt(device, n)
      modifies `files, `count, `offered, `sent
      ensures Valid() && (ok <==> Clean(device, force, old(files), n))
      ensures ok ==> sent == old(sent) + Picks(device, force, old(files), n, 20) && |sent| == |old(sent)| + count
      ensures ok ==> files == MarkSent(device, force, old(files), n)
    {
      hide Valid, DueIn, DualAt, MarkTo, Picks, Marked;
      count, ok := 0, true;
      var index := 0;
      Sized();
      NoneYet(device, force, files, n);
      while index < 20
        invariant ok && 0 <= index <= 20 && Valid() && |files| == 20 && count == |sent| - |old(sent)|
        invariant sent == old(sent) + Picks(device, force, old(files), n, index)
        invariant files == MarkTo(device, force, old(files), n, index)
        invariant forall i :: 0 <= i < index && Offered(device, force, old(files), n, i) ==> !device.Failed(n, i)
      {
        OneMore(device, force, old(files), n, index);
        ok := SendOne(n, index);
        if !ok {
          assert Offered(device, force, old(files), n, index);
          return;
        }
        index := index + 1;
      }
    }

    /** An even round with what follows it. */
    method EvenRound(n: nat) returns (outcome: Outcome)
      requires Valid() && n >= 1 && n % 2 == 0 && round == Number(n) && dual == DualAt(device, n)
      modifies `files, `count, `offered, `sent
      ensures Valid() && (outcome == Running ==> !dual && |sent| > |old(sent)|)
      ensures outcome == Running <==> RoundGoes(device, force, old(files), n)
      ensures outcome == Running || outcome == Complete ==> files == MarkSent(device, force, old(files), n)
      ensures outcome != Running ==>
                outcome == if !Clean(device, force, old(files), n) then NotReached
                           else if dual || !Takes(device, force, old(files), n) then Complete else NoVersion
      ensures outcome == Complete && !dual ==> sent == old(sent)
    {
      hide Distinct;
      ghost var f := files;
      PicksTake(device, force, f, n, 20);
      var ok := OfferAndSend(n);
      if !ok { return NotReached; }
      if dual || count == 0 { return Complete; }
      outcome := if device.Reboot(n) then Running else NoVersion;
    }

    /** The n-th round, of a run that began with files f. */
    method OneRound(n: nat, ghost f: seq<File>) returns (outcome: Outcome)
      requires Valid() && n >= 1 && round == Number(n) && files == FilesAt(device, force, f, n)
      requires n > 1 ==> dual == DualAt(device, n - 1)
      modifies this
      ensures Valid() && round == Number(n + 1)
      ensures outcome == Running <==> Goes(device, force, f, n)
      ensures outcome != Running ==> outcome == EndAt(device, force, f, n)
      ensures outcome == Running ==> files == FilesAt(device, force, f, n + 1) && dual == DualAt(device, n)
      ensures n % 2 == 0 && outcome == Running ==> !dual && |sent| > |old(sent)|
      ensures n % 2 == 1 ==> sent == old(sent)
    {
      hide Valid, RoundGoes, MarkSent, Clean, Takes, DualAt, Number;
      NextNumber(n);
      BanksAt(device, n);
      if round % 2 == 1 {
        outcome := JustOffer(n);
      } else {
        outcome := EvenRound(n);
      }
      NextRound();
    }

    /** The loop of FwUpdateMainProcess, for at most limit rounds. */
    method Rounds(limit: nat) returns (outcome: Outcome, rounds: nat)
      requires Valid() && round == 1 && sent == []
      modifies this
      ensures Valid() && rounds <= limit && (outcome == Running ==> rounds == limit)
      ensures outcome == Running <==> forall n :: 1 <= n <= limit ==> Goes(device, force, old(files), n)
      ensures forall n :: 1 <= n < rounds ==> Goes(device, force, old(files), n)
      ensures outcome != Running ==>
                && rounds >= 1 && !Goes(device, force, old(files), rounds)
                && outcome == EndAt(device, force, old(files), rounds)
      ensures force ==> Distinct(sent) && |sent| <= 20 && rounds <= 42 && round == rounds + 1
      ensures force && limit >= 42 ==> outcome != Running
      ensures device.Version(1) == Some(true) ==> rounds <= 2 && (limit >= 2 ==> outcome != Running)
    {
      hide Valid, Goes, EndAt, FilesAt, DualAt, Number, Distinct;
      rounds := 0;
      FirstFiles(device, force, files);
      NextNumber(1);
      Few();
      ghost var pairs, odd := 0, false;
      while rounds < limit
        invariant Valid() && rounds <= limit && round == Number(rounds + 1)
        invariant files == FilesAt(device, force, old(files), rounds + 1)
        invariant rounds > 0 ==> dual == DualAt(device, rounds)
        invariant forall n :: 1 <= n <= rounds ==> Goes(device, force, old(files), n)
        invariant rounds == 2 * pairs + if odd then 1 else 0
        invariant force ==> Distinct(sent) && pairs <= |sent| <= 20
        invariant device.Version(1) == Some(true) ==> rounds <= 1
        decreases limit - rounds
      {
        BanksAt(device, rounds + 1);
        NextNumber(rounds + 2);
        outcome := OneRound(rounds + 1, old(files));
        Few();
        rounds := rounds + 1;
        if outcome != Running { return; }
        if odd { pairs := pairs + 1; }
        odd := !odd;
      }
      NextNumber(rounds + 1);
      outcome := Running;
    }

    /**
     * FwUpdateMainProcess for at most limit rounds. It ends with the first round that is the last by itself, as that
     * round says, and goes on for as long as there is none. With force that is within 42 rounds, so that the counter
     * does not wrap, and no payload is sent twice; a device with two banks takes two rounds. Without force each round
     * goes on as it would with no file downloaded yet, so that a device that takes everything keeps it going.
     */
    method Run(limit: nat) returns (outcome: Outcome, rounds: nat)
      requires Valid() && round == 1 && sent == []
      modifies this
      ensures Valid() && rounds <= limit && (outcome == Running ==> rounds == limit)
      ensures outcome == Running <==> forall n :: 1 <= n <= limit ==> Goes(device, force, old(files), n)
      ensures forall n :: 1 <= n < rounds ==> Goes(device, force, old(files), n)
      ensures outcome != Running ==>
                && rounds >= 1 && !Goes(device, force, old(files), rounds)
                && outcome == EndAt(device, force, old(files), rounds)
      ensures !force ==>
                (outcome == Running <==> forall n :: 1 <= n <= limit ==> RoundGoes(device, false, old(files), n))
      ensures !force && Eager(device) && (exists i :: 0 <= i < 20 && Always(old(files)[i])) ==> outcome == Running
      ensures force ==> Distinct(sent) && |sent| <= 20 && rounds <= 42 && round == rounds + 1
      ensures force && limit >= 42 ==> outcome != Running
      ensures device.Version(1) == Some(true) ==> rounds <= 2 && (limit >= 2 ==> outcome != Running)
    {
      hide Distinct, RoundGoes, Eager, Always, Goes, EndAt;
      Unforced(device, files);
      outcome, rounds := Rounds(limit);
    }
  }
}
