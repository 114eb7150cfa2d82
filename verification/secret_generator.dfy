/**
 Secret generation (`create_random_number`): rejection sampling that keeps the
 first four distinct digits drawn from a uniform die and packs them into a
 number. The random source is injected as the sequence of digits it yields.
 */
module SecretGenerator {
  import opened Digits

  /**
   Reference definition: the distinct values of `s` in order of first
   occurrence. It is built from the right, independently of the loop model.
   */
  function Dedup(s: seq<Digit>): (r: seq<Digit>)
    ensures Distinct(r)
    ensures forall x :: x in r <==> x in s
  {
    if |s| == 0 then []
    else
      var r := Dedup(s[..|s| - 1]);
      if s[|s| - 1] in r then r else r + [s[|s| - 1]]
  }

  /** The first (at most) four elements. */
  function Take4<T>(s: seq<T>): seq<T> {
    if |s| <= 4 then s else s[..4]
  }

  /**
   The sampling loop: each draw not yet chosen is stored at the next free
   slot, and the loop stops as soon as four slots are filled. `chosen` holds
   the filled slots; the unfilled ones hold the sentinel 10, which no draw
   can equal.
   */
  function Collect(draws: seq<Digit>, chosen: seq<Digit>): (r: seq<Digit>)
    requires |chosen| < 4
    ensures chosen <= r && |r| <= 4
    ensures Distinct(chosen) ==> Distinct(r)
    ensures forall x :: x in r ==> x in chosen || x in draws
  {
    if |draws| == 0 then chosen
    else
      var next := if draws[0] in chosen then chosen else chosen + [draws[0]];
      if |next| >= 4 then next else Collect(draws[1..], next)
  }

  /** `1000*chosen[0] + 100*chosen[1] + 10*chosen[2] + chosen[3]` */
  function Pack(d: seq<Digit>): nat
    requires |d| == 4
  {
    1000 * (d[0] as nat) + 100 * (d[1] as nat) + 10 * (d[2] as nat) + d[3] as nat
  }

  /** The four base-10 digits of a number below 10000, thousands first. */
  function Digits4(n: nat): seq<Digit>
    requires n < 10000
  {
    [n / 1000, n / 100 % 10, n / 10 % 10, n % 10]
  }

  /** The reference prefix only grows when more draws are seen. */
  lemma {:induction false} DedupPrefix(a: seq<Digit>, b: seq<Digit>)
    ensures Dedup(a) <= Dedup(a + b)
  {
    if |b| > 0 {
      var b' := b[..|b| - 1];
      assert (a + b)[..|a + b| - 1] == a + b';
      DedupPrefix(a, b');
    } else {
      assert a + b == a;
    }
  }

  /**
   The loop, started from the distinct prefix of earlier draws, keeps exactly
   the first four distinct values of all draws.
   */
  lemma {:induction false} CollectKeepsFirstDistinct(p: seq<Digit>, s: seq<Digit>)
    requires |Dedup(p)| < 4
    ensures Collect(s, Dedup(p)) == Take4(Dedup(p + s))
    decreases |s|
  {
    if |s| == 0 {
      assert p + s == p;
    } else {
      var p' := p + [s[0]];
      assert p'[..|p'| - 1] == p;
      assert p' + s[1..] == p + s;
      DedupPrefix(p', s[1..]);
      if |Dedup(p')| < 4 {
        CollectKeepsFirstDistinct(p', s[1..]);
      }
    }
  }

  lemma DistinctPrefix<T>(s: seq<T>, k: nat)
    requires Distinct(s) && k <= |s|
    ensures Distinct(s[..k])
  {
  }

  /** Digits packed by `Pack` are recovered one by one. */
  lemma PackDigits(d: seq<Digit>)
    requires |d| == 4
    ensures Pack(d) < 10000
    ensures Digits4(Pack(d)) == d
  {
    var n := Pack(d);
    var a, b, c: nat := d[0], d[1], d[2];
    assert n / 1000 == a;
    assert n / 100 == 10 * a + b;
    assert n / 10 == 100 * a + 10 * b + c;
  }

  /** A number below 10000 is the packing of its own four digits. */
  lemma UnpackDigits(n: nat)
    requires n < 10000
    ensures Pack(Digits4(n)) == n
  {
    var q1, q2, q3 := n / 10, n / 100, n / 1000;
    assert n == 10 * q1 + n % 10;
    assert q2 == q1 / 10 && q1 == 10 * q2 + q1 % 10;
    assert q3 == q2 / 10 && q2 == 10 * q3 + q2 % 10;
  }

  /** Draws that are already distinct are kept as they are. */
  lemma {:induction false} DedupDistinct(s: seq<Digit>)
    requires Distinct(s)
    ensures Dedup(s) == s
  {
    if |s| > 0 {
      DedupDistinct(s[..|s| - 1]);
      assert s[|s| - 1] !in s[..|s| - 1];
    }
  }

  /**
   `create_random_number` over a finite prefix of the die's draws that holds
   at least four distinct values (without them the source loops forever).
   */
  function CreateRandomNumber(draws: seq<Digit>): (n: nat)
    requires |Dedup(draws)| >= 4
    ensures n < 10000
    ensures Digits4(n) == Dedup(draws)[..4]
    ensures Distinct(Digits4(n))
  {
    CollectKeepsFirstDistinct([], draws);
    assert [] + draws == draws;
    var chosen := Collect(draws, []);
    assert chosen == Dedup(draws)[..4];
    PackDigits(chosen);
    DistinctPrefix(Dedup(draws), 4);
    Pack(chosen)
  }
}
