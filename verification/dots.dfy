/** The loading indicator's dots (`AnimatedDots`): every tick of its timer
    appends a bullet, and a state of three bullets goes back to empty. The
    timer itself is outside the model; `Ticks(n)` is the state after `n`
    ticks. */
module AnimatedDots {

  /** The character `AnimatedDots` appends. */
  const Bullet: char := '\U{2022}'

  /** The dots state after one tick: a bullet more, or empty again once it
      holds three. */
  function Tick(dots: string): (next: string)
    ensures |next| <= 3
    ensures next == [] <==> |dots| >= 3
    ensures next == [] || (|next| == |dots| + 1 && next[|dots|] == Bullet)
    ensures next != [] ==> forall i :: 0 <= i < |dots| ==> next[i] == dots[i]
  {
    if |dots| >= 3 then "" else dots + [Bullet]
  }

  /** `k` bullets. */
  function Bullets(k: nat): (r: string)
    ensures |r| == k
  {
    if k == 0 then "" else Bullets(k - 1) + [Bullet]
  }

  /** The dots state after `n` ticks from the initial `""`. */
  function Ticks(n: nat): string {
    if n == 0 then "" else Tick(Ticks(n - 1))
  }

  /** A tick from `k` bullets gives `k + 1` bullets, or none after three. */
  lemma TickBullets(k: nat)
    requires k <= 3
    ensures Tick(Bullets(k)) == Bullets((k + 1) % 4)
  {
    if k < 3 {
      assert Bullets(k + 1) == Bullets(k) + [Bullet];
    }
  }

  /** After `4 * q + r` ticks, with `r < 4`, the indicator shows `r` bullets. */
  lemma {:induction false} TicksAt(q: nat, r: nat)
    requires r < 4
    ensures Ticks(4 * q + r) == Bullets(r)
    decreases q, r
  {
    if r > 0 {
      TicksAt(q, r - 1);
      TickBullets(r - 1);
    } else if q > 0 {
      TicksAt(q - 1, 3);
      assert 4 * (q - 1) + 3 == 4 * q - 1;
      TickBullets(3);
    }
  }

  /** After `n` ticks the indicator shows `n % 4` bullets. */
  lemma {:induction false} TicksCycle(n: nat)
    ensures Ticks(n) == Bullets(n % 4)
  {
    DivideByFour(n);
    TicksAt(n / 4, n % 4);
  }

  lemma DivideByFour(n: nat)
    ensures n == 4 * (n / 4) + n % 4 && n % 4 < 4
  {
  }

  /** The indicator never shows more than three bullets. */
  lemma TicksBounded(n: nat)
    ensures |Ticks(n)| <= 3
  {
    TicksCycle(n);
  }

  /** The indicator is back where it was every four ticks. */
  lemma TicksPeriodic(n: nat)
    ensures Ticks(n + 4) == Ticks(n)
  {
    TicksCycle(n);
    TicksCycle(n + 4);
    ModShift(n);
  }

  /** Starting from `""`, the indicator is `""` again after every fourth tick. */
  lemma {:induction false} TicksReturnToEmpty(m: nat)
    ensures Ticks(4 * m) == ""
  {
    if m > 0 {
      TicksReturnToEmpty(m - 1);
      TicksPeriodic(4 * (m - 1));
      assert 4 * (m - 1) + 4 == 4 * m;
    }
  }

  lemma ModShift(n: nat)
    ensures (n + 4) % 4 == n % 4
  {
  }
}
