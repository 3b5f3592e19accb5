/**
 The retry loop of `auto_join_handler`: after an invitation for the bot, the
 join is attempted; after each failure the spawned join task sleeps for the current delay
 (starting at 2 seconds), doubles it, and gives up once the doubled delay
 exceeds an hour.
 */
module Join {

  /** Two to the power `n`. */
  function Pow2(n: nat): (r: nat)
    ensures r >= 1
  {
    if n == 0 then 1 else 2 * Pow2(n - 1)
  }

  /** The initial delay, in seconds. */
  const FirstDelay: nat := 2

  /** The delay bound, in seconds, beyond which the join task gives up. */
  const GiveUpAbove: nat := 3600

  /** The sum of a sequence of waits. */
  function Sum(s: seq<nat>): nat
  {
    if |s| == 0 then 0 else Sum(s[..|s| - 1]) + s[|s| - 1]
  }

  /** Delays up to `2^11` stay within the bound; `2^12` exceeds it. */
  lemma {:induction false} Pow2Bound(n: nat)
    ensures n <= 11 ==> Pow2(n) <= 2048
    ensures n == 12 ==> Pow2(n) == 4096
  {
    if n <= 11 {
      Pow2Mono(n, 11);
    }
  }

  /** Powers of two grow with the exponent. */
  lemma {:induction false} Pow2Mono(m: nat, n: nat)
    requires m <= n
    ensures Pow2(m) <= Pow2(n)
    decreases n - m
  {
    if m < n {
      Pow2Mono(m, n - 1);
    }
  }

  /**
   One run of the join task. `accept(i)` is whether the server accepts the
   `i`-th attempt (counting from 0); the result is whether the bot joined,
   how many attempts were made, and the sleeps taken, in seconds.
   */
  method JoinRetry(accept: nat -> bool) returns (joined: bool, attempts: nat, sleeps: seq<nat>)
    ensures 1 <= attempts <= 11
    ensures joined <==> exists i :: 0 <= i < 11 && accept(i)
    ensures joined ==> accept(attempts - 1) && |sleeps| == attempts - 1
    ensures forall i :: 0 <= i < |sleeps| ==> !accept(i)
    ensures !joined ==> attempts == 11 && |sleeps| == 11
    ensures forall k :: 0 <= k < |sleeps| ==> sleeps[k] == Pow2(k + 1)
    ensures Sum(sleeps) == Pow2(|sleeps| + 1) - 2
    ensures !joined ==> Sum(sleeps) == 4094
  {
    var delay: nat := FirstDelay;
    joined, attempts, sleeps := false, 0, [];
    var givenUp := false;
    while !givenUp
      invariant |sleeps| == attempts
      invariant delay == Pow2(attempts + 1)
      invariant forall i :: 0 <= i < attempts ==> !accept(i)
      invariant forall k :: 0 <= k < |sleeps| ==> sleeps[k] == Pow2(k + 1)
      invariant Sum(sleeps) == Pow2(attempts + 1) - 2
      invariant givenUp ==> attempts == 11
      invariant !givenUp ==> attempts <= 10
      decreases 11 - attempts
    {
      if accept(attempts) {
        joined, attempts := true, attempts + 1;
        return;
      }
      attempts := attempts + 1;
      assert (sleeps + [delay])[..|sleeps|] == sleeps;
      sleeps := sleeps + [delay];
      delay := delay * 2;
      Pow2Bound(attempts + 1);
      if delay > GiveUpAbove {
        givenUp := true;
      }
    }
    Pow2Bound(12);
  }
}
