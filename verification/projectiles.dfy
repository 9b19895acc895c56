/** The bullet half of a tick: every live bullet, from the last to the
    first, is compared with the enemies in list order; the first enemy it
    touches takes 34 damage (and dies at 0 or below, worth 100 points), and
    a bullet that touched nothing is dropped once it is more than 50 units
    from the player.

    The geometry of the tick is an oracle: `hits(b, id)` says that bullet
    `b`, after this tick's advance, is within 1 unit of enemy `id`;
    `far(b)` says that it is more than 50 units from the player. */
module Projectiles {
  import opened Entities
  import opened GameSession

  const HitDamage: int := 34

  /** No enemy of the list is touched by the bullet. */
  predicate Misses(b: Bullet, es: seq<Enemy>, hits: (Bullet, nat) -> bool)
  {
    forall id | id in Ids(es) :: !hits(b, id)
  }

  /** The inner `for (let enemy of enemies)` loop: the first enemy, in
      list order, that the bullet touches. */
  function FirstHit(es: seq<Enemy>, b: Bullet, hits: (Bullet, nat) -> bool): (r: Option<nat>)
    ensures r.Some? ==> r.value < |es| && hits(b, es[r.value].id)
    ensures r.Some? ==> forall j | 0 <= j < r.value :: !hits(b, es[j].id)
    ensures r.None? ==> forall j | 0 <= j < |es| :: !hits(b, es[j].id)
    decreases |es|
  {
    if |es| == 0 then None
    else if hits(b, es[0].id) then Some(0)
    else
      match FirstHit(es[1..], b, hits)
      case None => None
      case Some(k) => Some(k + 1)
  }

  lemma MissesMeansNoHit(b: Bullet, es: seq<Enemy>, hits: (Bullet, nat) -> bool)
    requires Misses(b, es, hits)
    ensures FirstHit(es, b, hits) == None
  {
  }

  /** A bullet that misses a list of enemies misses every list made of
      some of the same enemies. */
  lemma MissesFewer(b: Bullet, es: seq<Enemy>, fewer: seq<Enemy>, hits: (Bullet, nat) -> bool)
    requires Misses(b, es, hits) && Ids(fewer) <= Ids(es)
    ensures Misses(b, fewer, hits)
  {
  }

  lemma IdsOfSubset(r: seq<Enemy>, es: seq<Enemy>)
    requires multiset(r) <= multiset(es)
    ensures Ids(r) <= Ids(es)
  {
    forall id | id in Ids(r)
      ensures id in Ids(es)
    {
      var e :| e in r && e.id == id;
      assert e in multiset(r);
      assert e in es;
    }
  }

  lemma IdsOfUpdate(es: seq<Enemy>, k: nat, e: Enemy)
    requires k < |es| && e.id == es[k].id
    ensures Ids(es[k := e]) == Ids(es)
  {
    var es' := es[k := e];
    forall id | id in Ids(es')
      ensures id in Ids(es)
    {
      var x :| x in es' && x.id == id;
      var j :| 0 <= j < |es'| && es'[j] == x;
      assert es[j] in es;
    }
    forall id | id in Ids(es)
      ensures id in Ids(es')
    {
      var x :| x in es && x.id == id;
      var j :| 0 <= j < |es| && es[j] == x;
      assert es'[j] in es';
    }
  }

  /** What one hit does to the enemy it lands on. */
  function Wound(e: Enemy): (r: Enemy)
    ensures r.id == e.id && r.health == e.health - HitDamage && r.barVisible
  {
    e.(health := e.health - HitDamage, barVisible := true)
  }

  /** A bullet lands on enemy `k`: the enemy loses 34 health and shows its
      bar; if that leaves it at 0 or below it is removed and the score rises
      by 100, otherwise the score is unchanged. */
  function ApplyHit(s: Session, k: nat): (r: Session)
    requires k < |s.enemies|
    ensures s.enemies[k].health - HitDamage <= 0 ==>
              r.score == s.score + KillScore && |r.enemies| == |s.enemies| - 1
    ensures s.enemies[k].health - HitDamage > 0 ==>
              r.score == s.score && r.enemies == s.enemies[k := Wound(s.enemies[k])]
    ensures r.score - s.score == KillScore * (|s.enemies| - |r.enemies|)
    ensures Ids(r.enemies) <= Ids(s.enemies)
    ensures r == s.(score := r.score, enemies := r.enemies)
  {
    var e := Wound(s.enemies[k]);
    var es := s.enemies[k := e];
    IdsOfUpdate(s.enemies, k, e);
    if e.health <= 0 then
      assert es[k].id == e.id;
      var gone := Despawn(s.(enemies := es), e.id);
      IdsOfSubset(gone.enemies, es);
      IncreaseScore(gone, KillScore)
    else s.(enemies := es)
  }

  /** With distinct identities, a killed enemy is exactly the one removed. */
  lemma KillRemovesTarget(s: Session, k: nat)
    requires k < |s.enemies| && UniqueIds(s.enemies)
    requires s.enemies[k].health - HitDamage <= 0
    ensures ApplyHit(s, k).enemies == s.enemies[..k] + s.enemies[k+1..]
  {
    var es := s.enemies[k := Wound(s.enemies[k])];
    assert UniqueIds(es) by {
      forall i, j | 0 <= i < j < |es|
        ensures es[i].id != es[j].id
      {
        assert es[i].id == s.enemies[i].id && es[j].id == s.enemies[j].id;
      }
    }
    RemoveEnemyAt(es, k);
    assert es[..k] == s.enemies[..k] && es[k+1..] == s.enemies[k+1..];
  }

  lemma ApplyHitKeepsUnique(s: Session, k: nat)
    requires k < |s.enemies|
    ensures UniqueIds(s.enemies) ==> UniqueIds(ApplyHit(s, k).enemies)
  {
    var es := s.enemies[k := Wound(s.enemies[k])];
    if !UniqueIds(s.enemies) {
      return;
    }
    assert UniqueIds(es) by {
      forall i, j | 0 <= i < j < |es|
        ensures es[i].id != es[j].id
      {
        assert es[i].id == s.enemies[i].id && es[j].id == s.enemies[j].id;
      }
    }
    if es[k].health <= 0 {
      RemoveEnemyKeepsUnique(es, es[k].id);
    }
  }

  /** Three hits kill a full-health enemy: it survives the first two with
      66 and then 32 health, and the third removes it for 100 points. */
  lemma ThirdHitKills(s: Session, e: Enemy)
    requires s.enemies == [e] && e.health == EnemyHealth
    ensures ApplyHit(s, 0).enemies == [Wound(e)] && Wound(e).health == 66
    ensures ApplyHit(ApplyHit(s, 0), 0).enemies[0].health == 32
    ensures ApplyHit(ApplyHit(s, 0), 0).score == s.score
    ensures ApplyHit(ApplyHit(ApplyHit(s, 0), 0), 0).enemies == []
    ensures ApplyHit(ApplyHit(ApplyHit(s, 0), 0), 0).score == s.score + KillScore
  {
  }

  /** Bullet `i` is destroyed this tick: it touched an enemy or is out of range. */
  predicate Destroyed(s: Session, i: nat, hits: (Bullet, nat) -> bool, far: Bullet -> bool)
    requires i < |s.bullets|
  {
    FirstHit(s.enemies, s.bullets[i], hits).Some? || far(s.bullets[i])
  }

  /** One iteration of the outer loop, with the range check skipped for a
      bullet that has already hit: the bullet is removed exactly once, for
      exactly one of the two reasons. */
  function BulletStep(s: Session, i: nat, hits: (Bullet, nat) -> bool, far: Bullet -> bool): (r: Session)
    requires i < |s.bullets|
    ensures Destroyed(s, i, hits, far) ==> r.bullets == Splice(s.bullets, i)
    ensures !Destroyed(s, i, hits, far) ==> r.bullets == s.bullets
    ensures FirstHit(s.enemies, s.bullets[i], hits).None? ==> r.enemies == s.enemies && r.score == s.score
    ensures r.score - s.score == KillScore * (|s.enemies| - |r.enemies|)
    ensures |r.enemies| <= |s.enemies| && Ids(r.enemies) <= Ids(s.enemies)
    ensures UniqueIds(s.enemies) ==> UniqueIds(r.enemies)
    ensures r == s.(score := r.score, enemies := r.enemies, bullets := r.bullets)
  {
    var b := s.bullets[i];
    match FirstHit(s.enemies, b, hits)
    case Some(k) =>
      ApplyHitKeepsUnique(s.(bullets := Splice(s.bullets, i)), k);
      ApplyHit(s.(bullets := Splice(s.bullets, i)), k)
    case None => if far(b) then s.(bullets := Splice(s.bullets, i)) else s
  }

  /** A bullet whose first hit leaves that enemy above 0 wounds exactly
      that enemy and scores nothing. */
  lemma BulletStepWounds(s: Session, i: nat, hits: (Bullet, nat) -> bool, far: Bullet -> bool)
    requires i < |s.bullets|
    ensures var h := FirstHit(s.enemies, s.bullets[i], hits);
            h.Some? && s.enemies[h.value].health > HitDamage ==>
              && BulletStep(s, i, hits, far).enemies == s.enemies[h.value := Wound(s.enemies[h.value])]
              && BulletStep(s, i, hits, far).score == s.score
  {
  }

  /** With distinct identities, a bullet whose first hit leaves that enemy
      at 0 or below removes exactly that enemy, keeping the others in
      order, for 100 points. */
  lemma BulletStepKills(s: Session, i: nat, hits: (Bullet, nat) -> bool, far: Bullet -> bool)
    requires i < |s.bullets| && UniqueIds(s.enemies)
    ensures var h := FirstHit(s.enemies, s.bullets[i], hits);
            h.Some? && s.enemies[h.value].health <= HitDamage ==>
              && BulletStep(s, i, hits, far).enemies == s.enemies[..h.value] + s.enemies[h.value+1..]
              && BulletStep(s, i, hits, far).score == s.score + KillScore
  {
    var h := FirstHit(s.enemies, s.bullets[i], hits);
    if h.Some? && s.enemies[h.value].health <= HitDamage {
      KillRemovesTarget(s.(bullets := Splice(s.bullets, i)), h.value);
    }
  }

  /** The outer loop `for (i = bullets.length - 1; i >= 0; i--)` from index
      `n - 1` down to 0. Every bullet it leaves either sat past index
      `n - 1` or is in range. */
  function SweepFrom(s: Session, n: nat, hits: (Bullet, nat) -> bool, far: Bullet -> bool): (r: Session)
    requires n <= |s.bullets|
    ensures r.score - s.score == KillScore * (|s.enemies| - |r.enemies|)
    ensures |r.enemies| <= |s.enemies| && Ids(r.enemies) <= Ids(s.enemies)
    ensures UniqueIds(s.enemies) ==> UniqueIds(r.enemies)
    ensures multiset(r.bullets) <= multiset(s.bullets)
    ensures KeptFrom(r.bullets, s.bullets[n..], far)
    ensures r == s.(score := r.score, enemies := r.enemies, bullets := r.bullets)
    decreases n
  {
    if n == 0 then KeptFromSelf(s.bullets, far); s
    else
      var s' := BulletStep(s, n - 1, hits, far);
      StepTailDropsFar(s, n, hits, far);
      var r := SweepFrom(s', n - 1, hits, far);
      InRangeOrFrom(r.bullets, s'.bullets[n - 1..], s.bullets[n..], far);
      r
  }

  /** `updateBullets`, collision bookkeeping only. */
  function UpdateBullets(s: Session, hits: (Bullet, nat) -> bool, far: Bullet -> bool): (r: Session)
    ensures r.score - s.score == KillScore * (|s.enemies| - |r.enemies|)
    ensures r.score >= s.score
    ensures |r.enemies| <= |s.enemies| && Ids(r.enemies) <= Ids(s.enemies)
    ensures UniqueIds(s.enemies) ==> UniqueIds(r.enemies)
    ensures multiset(r.bullets) <= multiset(s.bullets)
    ensures r == s.(score := r.score, enemies := r.enemies, bullets := r.bullets)
  {
    SweepFrom(s, |s.bullets|, hits, far)
  }

  /** Where the bullets stand once bullet `i` is handled: the ones before
      it are untouched, and after it comes the old tail, with bullet `i`
      in front unless it was destroyed. */
  lemma BulletStepLayout(s: Session, i: nat, hits: (Bullet, nat) -> bool, far: Bullet -> bool)
    requires i < |s.bullets|
    ensures BulletStep(s, i, hits, far).bullets[..i] == s.bullets[..i]
    ensures Destroyed(s, i, hits, far) ==> BulletStep(s, i, hits, far).bullets[i..] == s.bullets[i+1..]
    ensures !Destroyed(s, i, hits, far) ==> BulletStep(s, i, hits, far).bullets == s.bullets
  {
  }

  /** A sweep over the first `n` positions keeps every bullet after them. */
  lemma {:induction false} SweepKeepsTail(s: Session, n: nat, hits: (Bullet, nat) -> bool, far: Bullet -> bool)
    requires n <= |s.bullets|
    ensures forall j | n <= j < |s.bullets| :: s.bullets[j] in SweepFrom(s, n, hits, far).bullets
    decreases n
  {
    if n > 0 {
      var i := n - 1;
      var s' := BulletStep(s, i, hits, far);
      SweepKeepsTail(s', i, hits, far);
      BulletStepLayout(s, i, hits, far);
      forall j | n <= j < |s.bullets|
        ensures s.bullets[j] in SweepFrom(s', i, hits, far).bullets
      {
        if Destroyed(s, i, hits, far) {
          assert s'.bullets[i..][j - 1 - i] == s.bullets[i+1..][j - 1 - i];
          assert s'.bullets[j - 1] == s.bullets[j];
        } else {
          assert s'.bullets[j] == s.bullets[j];
        }
      }
    }
  }

  /** Every bullet of `r` is in range or comes from `src`, checked one
      bullet at a time. */
  predicate KeptFrom(r: seq<Bullet>, src: seq<Bullet>, far: Bullet -> bool)
    decreases |r|
  {
    |r| == 0 || ((r[0] in src || !far(r[0])) && KeptFrom(r[1..], src, far))
  }

  /** What `KeptFrom` says about each bullet. */
  lemma {:induction false} KeptFromMeans(r: seq<Bullet>, src: seq<Bullet>, far: Bullet -> bool)
    ensures KeptFrom(r, src, far) <==> forall b | b in r :: b in src || !far(b)
    decreases |r|
  {
    if |r| > 0 {
      KeptFromMeans(r[1..], src, far);
      assert forall b | b in r :: b == r[0] || b in r[1..];
    }
  }

  lemma KeptFromSelf(r: seq<Bullet>, far: Bullet -> bool)
    ensures KeptFrom(r, r, far)
  {
    KeptFromMeans(r, r, far);
  }

  lemma InRangeOrFrom(r: seq<Bullet>, mid: seq<Bullet>, src: seq<Bullet>, far: Bullet -> bool)
    requires KeptFrom(r, mid, far) && KeptFrom(mid, src, far)
    ensures KeptFrom(r, src, far)
  {
    KeptFromMeans(r, mid, far);
    KeptFromMeans(mid, src, far);
    KeptFromMeans(r, src, far);
  }

  /** After handling bullet `i`, what sits from `i` on came from past `i`
      or is bullet `i` itself, kept because it is in range. */
  lemma StepTailDropsFar(s: Session, n: nat, hits: (Bullet, nat) -> bool, far: Bullet -> bool)
    requires 0 < n <= |s.bullets|
    ensures KeptFrom(BulletStep(s, n - 1, hits, far).bullets[n - 1..], s.bullets[n..], far)
  {
    var i := n - 1;
    BulletStepLayout(s, i, hits, far);
    var s' := BulletStep(s, i, hits, far);
    if !Destroyed(s, i, hits, far) {
      assert s'.bullets[i..] == [s.bullets[i]] + s.bullets[n..];
    }
    KeptFromMeans(s'.bullets[i..], s.bullets[n..], far);
  }

  /** Of the first `n` positions, every bullet in range that touches none
      of the enemies survives the sweep. */
  lemma {:induction false} SweepKeepsMisses(s: Session, n: nat, hits: (Bullet, nat) -> bool, far: Bullet -> bool)
    requires n <= |s.bullets|
    ensures forall j | 0 <= j < n && !far(s.bullets[j]) && Misses(s.bullets[j], s.enemies, hits) ::
              s.bullets[j] in SweepFrom(s, n, hits, far).bullets
    decreases n
  {
    if n > 0 {
      var i := n - 1;
      var s' := BulletStep(s, i, hits, far);
      SweepKeepsMisses(s', i, hits, far);
      SweepKeepsTail(s', i, hits, far);
      BulletStepLayout(s, i, hits, far);
      forall j | 0 <= j < n && !far(s.bullets[j]) && Misses(s.bullets[j], s.enemies, hits)
        ensures s.bullets[j] in SweepFrom(s', i, hits, far).bullets
      {
        if j == i {
          MissesMeansNoHit(s.bullets[i], s.enemies, hits);
          assert s'.bullets[i] == s.bullets[i];
        } else {
          assert s'.bullets[..i][j] == s.bullets[..i][j];
          MissesFewer(s.bullets[j], s.enemies, s'.enemies, hits);
        }
      }
    }
  }

  /** After the bullet update no bullet is out of range, and every bullet
      that was in range and touched no enemy is still flying. */
  lemma UpdateBulletsSurvivors(s: Session, hits: (Bullet, nat) -> bool, far: Bullet -> bool)
    ensures forall b | b in UpdateBullets(s, hits, far).bullets :: b in s.bullets && !far(b)
    ensures forall b | b in s.bullets && !far(b) && Misses(b, s.enemies, hits) ::
              b in UpdateBullets(s, hits, far).bullets
  {
    SweepKeepsMisses(s, |s.bullets|, hits, far);
    var r := UpdateBullets(s, hits, far);
    KeptFromMeans(r.bullets, s.bullets[|s.bullets|..], far);
    forall b | b in r.bullets
      ensures b in s.bullets
    {
      assert b in multiset(r.bullets);
    }
    forall b | b in s.bullets && !far(b) && Misses(b, s.enemies, hits)
      ensures b in r.bullets
    {
      var j :| 0 <= j < |s.bullets| && s.bullets[j] == b;
    }
  }

  /** The bullet update keeps every identity distinct and already issued. */
  lemma UpdateBulletsKeepsValid(s: Session, hits: (Bullet, nat) -> bool, far: Bullet -> bool)
    requires Valid(s)
    ensures Valid(UpdateBullets(s, hits, far))
  {
    var r := UpdateBullets(s, hits, far);
    FewerBulletsUnique(r.bullets, s.bullets);
    forall e | e in r.enemies
      ensures e.id < r.nextId
    {
      assert e.id in Ids(r.enemies);
      var x :| x in s.enemies && x.id == e.id;
    }
    forall b | b in r.bullets
      ensures b.id < r.nextId
    {
      assert b in multiset(r.bullets);
    }
  }

  // ----- the loop as written -----

  /** One iteration of the outer loop as the code has it: after a hit the
      `break` leaves only the enemy loop, so the range check still runs
      and, if the bullet that hit is out of range, splices position `i`
      a second time, removing the neighbour that had moved into it. */
  function BulletStepAsWritten(s: Session, i: nat, hits: (Bullet, nat) -> bool, far: Bullet -> bool): (r: Session)
    requires i < |s.bullets|
    ensures i <= |r.bullets| && r.bullets[..i] == s.bullets[..i]
    ensures forall b | b in r.bullets[i..] :: b in s.bullets[i+1..] || (b == s.bullets[i] && !far(b))
    ensures multiset(r.bullets) <= multiset(s.bullets)
    ensures r.enemies == BulletStep(s, i, hits, far).enemies && r.score == BulletStep(s, i, hits, far).score
    ensures r.score - s.score == KillScore * (|s.enemies| - |r.enemies|)
    ensures |r.enemies| <= |s.enemies| && Ids(r.enemies) <= Ids(s.enemies)
    ensures r == s.(score := r.score, enemies := r.enemies, bullets := r.bullets)
  {
    var b := s.bullets[i];
    var once := Splice(s.bullets, i);
    match FirstHit(s.enemies, b, hits)
    case Some(k) =>
      var hit := ApplyHit(s.(bullets := once), k);
      if far(b) then
        SpliceTwice(s.bullets, i);
        hit.(bullets := Splice(once, i))
      else hit
    case None =>
      if far(b) then s.(bullets := once) else s
  }

  /** Splicing position `i` twice keeps the prefix before `i`, and what
      follows it comes from past position `i + 1`. */
  lemma SpliceTwice<T>(xs: seq<T>, i: nat)
    requires i < |xs|
    ensures i <= |Splice(Splice(xs, i), i)| && Splice(Splice(xs, i), i)[..i] == xs[..i]
    ensures forall x | x in Splice(Splice(xs, i), i)[i..] :: x in xs[i+1..]
    ensures multiset(Splice(Splice(xs, i), i)) <= multiset(xs)
  {
    var once := Splice(xs, i);
    if i < |once| {
      var twice := Splice(once, i);
      assert once[i..] == xs[i+1..];
      assert twice[i..] == once[i+1..];
      forall x | x in twice[i..]
        ensures x in xs[i+1..]
      {
        var k :| 0 <= k < |twice[i..]| && twice[i..][k] == x;
        assert once[i+1..][k] == once[i..][k + 1];
      }
    }
  }

  /** The outer loop as written, from index `n - 1` down to 0. It too
      leaves only bullets that sat past index `n - 1` or are in range. */
  function SweepFromAsWritten(s: Session, n: nat, hits: (Bullet, nat) -> bool, far: Bullet -> bool): (r: Session)
    requires n <= |s.bullets|
    ensures r.score - s.score == KillScore * (|s.enemies| - |r.enemies|)
    ensures |r.enemies| <= |s.enemies| && Ids(r.enemies) <= Ids(s.enemies)
    ensures multiset(r.bullets) <= multiset(s.bullets)
    ensures KeptFrom(r.bullets, s.bullets[n..], far)
    ensures r == s.(score := r.score, enemies := r.enemies, bullets := r.bullets)
    decreases n
  {
    if n == 0 then KeptFromSelf(s.bullets, far); s
    else
      var s' := BulletStepAsWritten(s, n - 1, hits, far);
      StepAsWrittenTailDropsFar(s, n, hits, far);
      var r := SweepFromAsWritten(s', n - 1, hits, far);
      InRangeOrFrom(r.bullets, s'.bullets[n - 1..], s.bullets[n..], far);
      r
  }

  /** `updateBullets` as the code has it. */
  function UpdateBulletsAsWritten(s: Session, hits: (Bullet, nat) -> bool, far: Bullet -> bool): (r: Session)
    ensures r.score - s.score == KillScore * (|s.enemies| - |r.enemies|)
    ensures r.score >= s.score
    ensures |r.enemies| <= |s.enemies| && Ids(r.enemies) <= Ids(s.enemies)
    ensures multiset(r.bullets) <= multiset(s.bullets)
    ensures r == s.(score := r.score, enemies := r.enemies, bullets := r.bullets)
  {
    SweepFromAsWritten(s, |s.bullets|, hits, far)
  }

  /** The second splice touches only bullets already handled, so the two
      sweeps do the same to the enemies and the score whenever they start
      from the same unhandled bullets. */
  lemma {:induction false} SweepAsWrittenAgrees(s: Session, t: Session, n: nat,
                                                hits: (Bullet, nat) -> bool, far: Bullet -> bool)
    requires n <= |s.bullets| && n <= |t.bullets| && s.bullets[..n] == t.bullets[..n]
    requires s == t.(bullets := s.bullets)
    ensures SweepFromAsWritten(s, n, hits, far).enemies == SweepFrom(t, n, hits, far).enemies
    ensures SweepFromAsWritten(s, n, hits, far).score == SweepFrom(t, n, hits, far).score
    decreases n
  {
    if n > 0 {
      var i := n - 1;
      StepsAgree(s, t, n, hits, far);
      SweepAsWrittenAgrees(BulletStepAsWritten(s, i, hits, far), BulletStep(t, i, hits, far), i, hits, far);
    }
  }

  /** One step of each sweep from the same unhandled bullets leaves the
      two sessions agreeing on everything but the bullets, and on the
      bullets still to handle. */
  lemma StepsAgree(s: Session, t: Session, n: nat, hits: (Bullet, nat) -> bool, far: Bullet -> bool)
    requires 0 < n <= |s.bullets| && n <= |t.bullets| && s.bullets[..n] == t.bullets[..n]
    requires s == t.(bullets := s.bullets)
    ensures var s', t' := BulletStepAsWritten(s, n - 1, hits, far), BulletStep(t, n - 1, hits, far);
            && n - 1 <= |s'.bullets| && n - 1 <= |t'.bullets|
            && s'.bullets[..n - 1] == t'.bullets[..n - 1]
            && s' == t'.(bullets := s'.bullets)
  {
    var i := n - 1;
    assert s.bullets[i] == s.bullets[..n][i] == t.bullets[i];
    BulletStepLayout(t, i, hits, far);
    assert s.bullets[..i] == s.bullets[..n][..i];
    assert t.bullets[..i] == t.bullets[..n][..i];
    SameBulletSameStep(s, t, i, hits, far);
  }

  /** What a step does to the enemies and the score depends only on the
      bullet it handles. */
  lemma SameBulletSameStep(s: Session, t: Session, i: nat, hits: (Bullet, nat) -> bool, far: Bullet -> bool)
    requires i < |s.bullets| && i < |t.bullets| && s.bullets[i] == t.bullets[i]
    requires s == t.(bullets := s.bullets)
    ensures BulletStep(s, i, hits, far).enemies == BulletStep(t, i, hits, far).enemies
    ensures BulletStep(s, i, hits, far).score == BulletStep(t, i, hits, far).score
  {
  }

  /** The code's bullet update treats the enemies and the score exactly as
      the corrected one does; the two differ only in the bullets kept. */
  lemma UpdateBulletsAsWrittenAgrees(s: Session, hits: (Bullet, nat) -> bool, far: Bullet -> bool)
    ensures UpdateBulletsAsWritten(s, hits, far).enemies == UpdateBullets(s, hits, far).enemies
    ensures UpdateBulletsAsWritten(s, hits, far).score == UpdateBullets(s, hits, far).score
  {
    SweepAsWrittenAgrees(s, s, |s.bullets|, hits, far);
  }

  lemma StepAsWrittenTailDropsFar(s: Session, n: nat, hits: (Bullet, nat) -> bool, far: Bullet -> bool)
    requires 0 < n <= |s.bullets|
    ensures KeptFrom(BulletStepAsWritten(s, n - 1, hits, far).bullets[n - 1..], s.bullets[n..], far)
  {
    KeptFromMeans(BulletStepAsWritten(s, n - 1, hits, far).bullets[n - 1..], s.bullets[n..], far);
  }

  /** After the code's bullet update every bullet left was already flying
      and is in range. */
  lemma UpdateBulletsAsWrittenSurvivors(s: Session, hits: (Bullet, nat) -> bool, far: Bullet -> bool)
    ensures forall b | b in UpdateBulletsAsWritten(s, hits, far).bullets :: b in s.bullets && !far(b)
  {
    var r := UpdateBulletsAsWritten(s, hits, far);
    KeptFromMeans(r.bullets, s.bullets[|s.bullets|..], far);
    forall b | b in r.bullets
      ensures b in s.bullets
    {
      assert b in multiset(r.bullets);
    }
  }

  /** The code's bullet update keeps every identity distinct and issued. */
  lemma UpdateBulletsAsWrittenKeepsValid(s: Session, hits: (Bullet, nat) -> bool, far: Bullet -> bool)
    requires Valid(s)
    ensures Valid(UpdateBulletsAsWritten(s, hits, far))
  {
    var r := UpdateBulletsAsWritten(s, hits, far);
    UpdateBulletsAsWrittenAgrees(s, hits, far);
    UpdateBulletsKeepsValid(s, hits, far);
    FewerBulletsUnique(r.bullets, s.bullets);
    forall b | b in r.bullets
      ensures b.id < r.nextId
    {
      assert b in multiset(r.bullets);
    }
  }

  /** Two bullets, one enemy: the second bullet is in range and touches
      nothing, the first touches the enemy while out of range. The code
      loses both bullets; the second should survive. */
  lemma HitOutOfRangeDropsNeighbour(s: Session, b0: Bullet, b1: Bullet, e: Enemy,
                                    hits: (Bullet, nat) -> bool, far: Bullet -> bool)
    requires s.bullets == [b0, b1] && s.enemies == [e] && e.health == EnemyHealth
    requires hits(b0, e.id) && far(b0) && !hits(b1, e.id) && !far(b1)
    ensures UpdateBulletsAsWritten(s, hits, far).bullets == []
    ensures UpdateBullets(s, hits, far).bullets == [b1]
  {
    assert FirstHit(s.enemies, b1, hits) == None;
    assert FirstHit(s.enemies, b0, hits) == Some(0);
    assert Splice([b0, b1], 1) == [b0] && Splice([b0, b1], 0) == [b1] && Splice([b1], 0) == [];
    // as written: bullet 1 stays, bullet 0 hits and then is spliced again
    var t1 := BulletStepAsWritten(s, 1, hits, far);
    assert t1 == s;
    var t0 := BulletStepAsWritten(t1, 0, hits, far);
    assert ApplyHit(s.(bullets := [b1]), 0).bullets == [b1];
    assert t0.bullets == [];
    assert SweepFromAsWritten(s, 2, hits, far) == SweepFromAsWritten(t1, 1, hits, far);
    assert SweepFromAsWritten(t1, 1, hits, far) == SweepFromAsWritten(t0, 0, hits, far);
    // corrected: bullet 0 leaves for its hit alone
    var u1 := BulletStep(s, 1, hits, far);
    assert u1 == s;
    var u0 := BulletStep(u1, 0, hits, far);
    assert u0.bullets == [b1];
    assert SweepFrom(s, 2, hits, far) == SweepFrom(u1, 1, hits, far);
    assert SweepFrom(u1, 1, hits, far) == SweepFrom(u0, 0, hits, far);
  }
}
