/** Polling from the timeout queue: a bounded number of attempts and one call back. */
module Errand {
  function Attempts(retries: int): nat { if retries > 1 then retries else 1 }

  /** A poll function that is asked again until it succeeds or the retries run out. */
  class PollErrand {
    var retries: int
    const poll: nat -> bool
    ghost var asked: nat
    var calls: seq<bool>

    constructor (retries: int, poll: nat -> bool, ghost asked: nat)
      ensures this.retries == retries && this.poll == poll && this.asked == asked && this.calls == []
    {
      this.retries, this.poll, this.asked, this.calls := retries, poll, asked, [];
    }

    /** One expiry of the timeout: attempt number `k`.  It calls back, or asks to be scheduled again. */
    method Expired(k: nat) returns (again: bool)
      requires asked == k && calls == []
      modifies this
      ensures asked == k + 1
      ensures calls == if poll(k) then [true] else if old(retries) <= 1 then [false] else []
      ensures again <==> calls == []
      ensures again ==> retries == old(retries) - 1
    {
      asked := asked + 1;
      if poll(k) {
        calls := calls + [true];
        return false;
      }
      retries := retries - 1;
      if retries <= 0 {
        calls := calls + [false];
        return false;
      }
      return true;
    }
  }

  /** `poll`: the callback is called exactly once, with the last answer; the poll function is executed
      until its first success, but at most once more than the number of retries. */
  method Poll(retries: int, poll: nat -> bool) returns (ran: nat, calls: seq<bool>)
    ensures 1 <= ran <= Attempts(retries) + 1
    ensures calls == [poll(ran - 1)]
    ensures forall k: nat :: k < ran - 1 ==> !poll(k)
    ensures !poll(ran - 1) ==> ran == Attempts(retries) + 1
  {
    if poll(0) {
      return 1, [true];
    }
    var errand := new PollErrand(retries, poll, 1);
    ran := 1;
    var again := true;
    while again
      invariant errand.asked == ran >= 1 && errand.poll == poll && fresh(errand)
      invariant forall k: nat :: k < ran - 1 ==> !poll(k)
      invariant again ==> errand.calls == [] && !poll(ran - 1)
      invariant again ==> errand.retries == retries - (ran - 1) && ran <= Attempts(retries)
                          && (ran > 1 ==> errand.retries >= 1)
      invariant !again ==> errand.calls == [poll(ran - 1)] && ran <= Attempts(retries) + 1
      invariant !again && !poll(ran - 1) ==> ran == Attempts(retries) + 1
      decreases again, Attempts(retries) + 1 - ran
    {
      again := errand.Expired(ran);
      ran := ran + 1;
    }
    calls := errand.calls;
  }

  /** The documented limit, at most `retries` executions, is kept exactly if the poll function succeeds
      within that many attempts. */
  lemma DocumentedLimit(retries: nat, poll: nat -> bool, ran: nat)
    requires retries >= 1 && 1 <= ran <= Attempts(retries) + 1
    requires forall k: nat :: k < ran - 1 ==> !poll(k)
    requires !poll(ran - 1) ==> ran == Attempts(retries) + 1
    ensures ran <= retries <==> exists k: nat :: k < retries && poll(k)
  {
    if ran <= retries { assert poll(ran - 1); }
  }

  /** It is not kept by a function that never succeeds: that one is executed once too often. */
  method PollInVain(retries: int) returns (ran: nat, calls: seq<bool>)
    requires retries >= 1
    ensures ran == retries + 1 && calls == [false]
  {
    ran, calls := Poll(retries, _ => false);
  }
}
