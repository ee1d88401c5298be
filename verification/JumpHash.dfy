/**
  Choice of a memcached server by jump consistent hashing
  (pkg/cache/memcached_client_selector.go). Where a step leads is a parameter: the
  results need only that it leads forward, which holds of the formula on reals and is
  kept by correct rounding, and that it does not look at the number of buckets.
 */
module JumpHash {
  import opened Wrappers
  import opened Arithmetic

  const UINT64 := 0x1_0000_0000_0000_0000

  /** Where the walk leads from a bucket, given the key just drawn. */
  type Step = (nat, nat) -> nat

  ghost predicate Advances(step: Step) {
    forall b: nat, key: nat :: step(b, key) >= b + 1
  }

  function NextKey(key: nat): nat {
    (key * 2862933555777941757 + 1) % UINT64
  }

  /** The formula of the source, on reals. */
  function Exact(b: nat, key: nat): nat {
    var k := key % UINT64;
    ExactAdvances(b, k);
    ((b + 1) as real * (0x8000_0000 as real / ((k / 0x2_0000_0000 + 1) as real))).Floor
  }

  lemma ExactAdvances(b: nat, k: nat)
    requires k < UINT64
    ensures ((b + 1) as real * (0x8000_0000 as real / ((k / 0x2_0000_0000 + 1) as real))).Floor >= b + 1
  {
    var d := (k / 0x2_0000_0000 + 1) as real;
    assert 1.0 <= d <= 0x8000_0000 as real;
    var ratio := 0x8000_0000 as real / d;
    assert ratio * d == 0x8000_0000 as real;
    assert ratio >= 1.0;
    var x := (b + 1) as real;
    assert x * ratio >= x by {
      assert x * (ratio - 1.0) >= 0.0;
    }
  }

  lemma ExactStep()
    ensures Advances(Exact)
  {
    forall b: nat, key: nat ensures Exact(b, key) >= b + 1 {
      ExactAdvances(b, key % UINT64);
    }
  }

  /** The formula is the quotient of the source rounded down: j buckets fit, one more does not. */
  lemma ExactMeaning(b: nat, key: nat)
    ensures var d := (key % UINT64 / 0x2_0000_0000 + 1) as real; var j := Exact(b, key) as real;
      j * d <= (b + 1) as real * 0x8000_0000 as real < j * d + d
  {
    var d := (key % UINT64 / 0x2_0000_0000 + 1) as real;
    var x := (b + 1) as real * (0x8000_0000 as real / d);
    assert Exact(b, key) == x.Floor;
    Scaled((b + 1) as real, 0x8000_0000 as real, d, x, Exact(b, key) as real);
  }

  lemma Scaled(n: real, m: real, d: real, x: real, j: real)
    requires d > 0.0 && x == n * (m / d) && j <= x < j + 1.0
    ensures j * d <= n * m < j * d + d
  {
    var ratio, f := m / d, x - j;
    assert ratio * d == m;
    assert x * d == n * (ratio * d);
    assert x * d == j * d + f * d;
    Rest(f, d);
    Between(j * d, f * d, d, n * m);
  }

  lemma Rest(f: real, d: real)
    requires 0.0 <= f < 1.0 && d > 0.0
    ensures 0.0 <= f * d < d
  {
    assert (1.0 - f) * d > 0.0;
    assert (1.0 - f) * d == d - f * d;
  }

  lemma Between(whole: real, part: real, d: real, p: real)
    requires p == whole + part && 0.0 <= part < d
    ensures whole <= p < whole + d
  {
  }

  const INVERSE := 16133697096952638549
  const CARRY := 2503948805982125087

  /** The generator loses nothing: every 64-bit key has its own successor, and 0 does not stay where it is. */
  function PreviousKey(key: nat): nat {
    (key + UINT64 - 1) % UINT64 * INVERSE % UINT64
  }

  lemma KeyRoundTrip(key: nat)
    requires key < UINT64
    ensures PreviousKey(NextKey(key)) == key && NextKey(key) < UINT64 && NextKey(0) == 1
  {
    hide PreviousKey;
    var product := key * 2862933555777941757;
    var r := (product + 1) / UINT64;
    assert NextKey(key) == product + 1 - r * UINT64;
    Unwound(key, NextKey(key), r);
  }

  lemma Unwound(key: nat, next: nat, r: int)
    requires key < UINT64 && next < UINT64 && next == key * 2862933555777941757 + 1 - r * UINT64
    ensures PreviousKey(next) == key
  {
    var s := if next == 0 then 1 else 0;
    var back := next - 1 + s * UINT64;
    DivUnique(next + UINT64 - 1, UINT64, 1 - s, back);
    assert (next + UINT64 - 1) % UINT64 == back;
    Cancels(key, s - r, back);
  }

  lemma Cancels(key: nat, k: int, back: int)
    requires key < UINT64 && back == key * 2862933555777941757 + k * UINT64
    ensures back * INVERSE % UINT64 == key
  {
    var z := key * CARRY + k * INVERSE;
    assert 2862933555777941757 * INVERSE == 1 + CARRY * UINT64;
    assert back * INVERSE == z * UINT64 + key;
    DivUnique(back * INVERSE, UINT64, z, key);
  }

  // ---------- The walk, without a number of buckets ----------

  datatype Place = Place(bucket: nat, key: nat)

  function Move(step: Step, p: Place): Place {
    var key := NextKey(p.key);
    Place(step(p.bucket, key), key)
  }

  /** The walk of a key after k steps. */
  function Walk(step: Step, key: nat, k: nat): Place {
    if k == 0 then Place(0, key) else Move(step, Walk(step, key, k - 1))
  }

  ghost predicate Visits(step: Step, key: nat, bucket: nat) {
    exists k: nat :: Walk(step, key, k).bucket == bucket
  }

  lemma {:induction false} WalkRises(step: Step, key: nat, i: nat, k: nat)
    requires Advances(step) && i < k
    ensures Walk(step, key, i).bucket < Walk(step, key, k).bucket
  {
    var last := Walk(step, key, k - 1);
    assert Move(step, last).bucket >= last.bucket + 1;
    if i < k - 1 {
      WalkRises(step, key, i, k - 1);
    }
  }

  /** The bucket of a key: the last one its walk visits below n. */
  ghost predicate IsBucket(step: Step, key: nat, n: nat, b: nat) {
    b < n && Visits(step, key, b) && forall c :: b < c < n ==> !Visits(step, key, c)
  }

  /** jumpHash, with -1 for no buckets. */
  method Hash(step: Step, key: nat, n: nat) returns (bucket: int)
    requires Advances(step) && key < UINT64
    ensures n == 0 ==> bucket == -1
    ensures n > 0 ==> 0 <= bucket && IsBucket(step, key, n, bucket)
  {
    var b, j, drawn := -1, 0, key;
    ghost var k := 0;
    while j < n
      invariant j >= 0 && k >= 0 && drawn >= 0
      invariant Walk(step, key, k) == Place(j, drawn)
      invariant if k == 0 then b == -1 else b == Walk(step, key, k - 1).bucket < n
      decreases n - j
    {
      b := j;
      drawn := NextKey(drawn);
      j := step(b, drawn);
      k := k + 1;
    }
    if n > 0 {
      LastBelow(step, key, n, k - 1);
    }
    return b;
  }

  lemma LastBelow(step: Step, key: nat, n: nat, k: nat)
    requires Advances(step) && Walk(step, key, k).bucket < n <= Walk(step, key, k + 1).bucket
    ensures IsBucket(step, key, n, Walk(step, key, k).bucket)
  {
    var b := Walk(step, key, k).bucket;
    forall c | b < c < n ensures !Visits(step, key, c) {
      forall i: nat ensures Walk(step, key, i).bucket != c {
        if i < k {
          WalkRises(step, key, i, k);
        } else if i > k + 1 {
          WalkRises(step, key, k + 1, i);
        }
      }
    }
  }

  lemma OneBucket(step: Step, key: nat, n: nat, b: nat, c: nat)
    requires IsBucket(step, key, n, b) && IsBucket(step, key, n, c)
    ensures b == c
  {
  }

  /** A bucket in range exists for every number of buckets but none. */
  lemma {:induction false} BucketExists(step: Step, key: nat, n: nat) returns (b: nat)
    requires Advances(step) && n > 0
    ensures IsBucket(step, key, n, b)
  {
    if n == 1 {
      b := 0;
      assert Walk(step, key, 0).bucket == 0;
    } else {
      b := BucketExists(step, key, n - 1);
      if Visits(step, key, n - 1) {
        b := n - 1;
      }
    }
  }

  /**
    Going from n to more buckets, a key stays where it is unless its walk visits one of
    the new buckets, and then it moves to the last of those: never between old buckets.
   */
  lemma Grow(step: Step, key: nat, n: nat, more: nat, b: nat, c: nat)
    requires Advances(step) && 0 < n <= more
    requires IsBucket(step, key, n, b) && IsBucket(step, key, more, c)
    ensures c == b || n <= c < more
    ensures c == b <==> forall added :: n <= added < more ==> !Visits(step, key, added)
  {
    if c < n {
      OneBucket(step, key, n, b, c);
    }
  }

  // ---------- Servers ----------

  /** The server at the key's bucket. */
  ghost predicate Picked<Addr>(step: Step, addrs: seq<Addr>, sum: nat, addr: Addr) {
    exists b :: 0 <= b < |addrs| && IsBucket(step, sum, |addrs|, b) && addr == addrs[b]
  }

  /** PickServer: no answer without servers, and no hashing for a single one. */
  method PickServer<Addr>(step: Step, addrs: seq<Addr>, sum: nat) returns (addr: Option<Addr>)
    requires Advances(step) && sum < UINT64
    ensures addr.None? <==> addrs == []
    ensures addr.Some? ==> Picked(step, addrs, sum, addr.value)
  {
    if |addrs| == 0 {
      return None;
    } else if |addrs| == 1 {
      ghost var b := BucketExists(step, sum, 1);
      return Some(addrs[0]);
    }
    var b := Hash(step, sum, |addrs|);
    return Some(addrs[b]);
  }

  /** Adding a server that sorts last moves a key to that server or not at all. */
  lemma AddServer<Addr>(step: Step, addrs: seq<Addr>, added: Addr, sum: nat, before: Addr, after: Addr)
    requires Advances(step) && Picked(step, addrs, sum, before) && Picked(step, addrs + [added], sum, after)
    ensures after == if Visits(step, sum, |addrs|) then added else before
  {
    var b :| 0 <= b < |addrs| && IsBucket(step, sum, |addrs|, b) && before == addrs[b];
    var c :| 0 <= c < |addrs + [added]| && IsBucket(step, sum, |addrs + [added]|, c) && after == (addrs + [added])[c];
    Grow(step, sum, |addrs|, |addrs| + 1, b, c);
  }
}
