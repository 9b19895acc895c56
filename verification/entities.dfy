/** Value records of the game session and the list operations the game
    performs on them: `indexOf` + `splice` on the enemy list and `splice`
    on the bullet list. */
module Entities {

  datatype Option<+T> = None | Some(value: T)

  /** A point or displacement in the arena. */
  datatype Vec3 = Vec3(x: real, y: real, z: real)

  const Zero: Vec3 := Vec3(0.0, 0.0, 0.0)

  function Add(a: Vec3, b: Vec3): Vec3
  {
    Vec3(a.x + b.x, a.y + b.y, a.z + b.z)
  }

  /** An enemy mesh. The game finds enemies with `indexOf`, which compares
      object references; `id` stands for that identity. Position and
      pursuit are geometry and stay outside the record. */
  datatype Enemy = Enemy(id: nat, health: int, barVisible: bool)

  /** A bullet mesh; its position and direction are geometry. */
  datatype Bullet = Bullet(id: nat)

  /** The four movement flags the keyboard handlers set. */
  datatype Controls = Controls(forward: bool, backward: bool, left: bool, right: bool)

  const Released: Controls := Controls(false, false, false, false)

  /** Player yaw and camera pitch, each with the target it is smoothed toward. */
  datatype Aim = Aim(yaw: real, targetYaw: real, pitch: real, targetPitch: real)

  const Level: Aim := Aim(0.0, 0.0, 0.0, 0.0)

  /** No two enemies of the list are the same object. */
  predicate UniqueIds(es: seq<Enemy>)
  {
    forall i, j | 0 <= i < j < |es| :: es[i].id != es[j].id
  }

  /** No two bullets of the list are the same object. */
  predicate UniqueBullets(bs: seq<Bullet>)
  {
    forall i, j | 0 <= i < j < |bs| :: bs[i].id != bs[j].id
  }

  function Ids(es: seq<Enemy>): set<nat>
  {
    set e | e in es :: e.id
  }

  /** `enemies.indexOf(e)`: the first position holding the object, or -1. */
  function IndexOf(es: seq<Enemy>, id: nat): (r: int)
    ensures -1 <= r < |es|
    ensures r == -1 <==> forall j | 0 <= j < |es| :: es[j].id != id
    ensures 0 <= r ==> es[r].id == id && forall j | 0 <= j < r :: es[j].id != id
    decreases |es|
  {
    if |es| == 0 then -1
    else if es[0].id == id then 0
    else
      var k := IndexOf(es[1..], id);
      if k == -1 then -1 else k + 1
  }

  /** `removeEnemy`: drop the first occurrence of the object, if any. */
  function RemoveEnemy(es: seq<Enemy>, id: nat): (r: seq<Enemy>)
    ensures (forall j | 0 <= j < |es| :: es[j].id != id) ==> r == es
    ensures (exists j | 0 <= j < |es| :: es[j].id == id) ==> |r| == |es| - 1
    ensures multiset(r) <= multiset(es)
  {
    var k := IndexOf(es, id);
    if k > -1 then
      assert es == es[..k] + [es[k]] + es[k+1..];
      es[..k] + es[k+1..]
    else es
  }

  lemma RemoveEnemyKeepsUnique(es: seq<Enemy>, id: nat)
    requires UniqueIds(es)
    ensures UniqueIds(RemoveEnemy(es, id))
  {
    var k := IndexOf(es, id);
    if k > -1 {
      DropKeepsUnique(es, k);
    }
  }

  lemma DropKeepsUnique(es: seq<Enemy>, k: nat)
    requires k < |es|
    ensures UniqueIds(es) ==> UniqueIds(es[..k] + es[k+1..])
  {
    var r := es[..k] + es[k+1..];
    if UniqueIds(es) {
      forall i, j | 0 <= i < j < |r|
        ensures r[i].id != r[j].id
      {
        var i' := if i < k then i else i + 1;
        var j' := if j < k then j else j + 1;
        assert r[i] == es[i'] && r[j] == es[j'];
      }
    }
  }

  /** Removal by identity never takes out an enemy with another identity. */
  lemma RemoveEnemyKeepsOthers(es: seq<Enemy>, id: nat, x: Enemy)
    requires x in es && x.id != id
    ensures x in RemoveEnemy(es, id)
  {
    RemoveEnemyIsRemoveFirst(es, id);
    RemoveFirstKeepsOthers(es, id, x);
  }

  lemma {:induction false} RemoveFirstKeepsOthers(es: seq<Enemy>, id: nat, x: Enemy)
    requires x in es && x.id != id
    ensures x in RemoveFirst(es, id)
    decreases |es|
  {
    if es[0] != x {
      assert x in es[1..];
      if es[0].id != id {
        RemoveFirstKeepsOthers(es[1..], id, x);
      }
    }
  }

  /** A list holding some of the bullets of a list without repeats has
      no repeats either. */
  lemma FewerBulletsUnique(r: seq<Bullet>, bs: seq<Bullet>)
    requires multiset(r) <= multiset(bs) && UniqueBullets(bs)
    ensures UniqueBullets(r)
  {
    forall i, j | 0 <= i < j < |r|
      ensures r[i].id != r[j].id
    {
      if r[i].id == r[j].id {
        var x := r[i];
        assert r == r[..j] + r[j..];
        assert x in r[..j] && x == r[j..][0];
        assert multiset(r)[x] == multiset(r[..j])[x] + multiset(r[j..])[x];
        UniqueBulletsOnce(bs, x);
        assert false;
      }
    }
  }

  lemma {:induction false} UniqueBulletsOnce(bs: seq<Bullet>, x: Bullet)
    requires UniqueBullets(bs)
    ensures multiset(bs)[x] <= 1
    decreases |bs|
  {
    if |bs| > 0 {
      var t := bs[1..];
      assert bs == [bs[0]] + t;
      assert UniqueBullets(t) by {
        forall i, j | 0 <= i < j < |t|
          ensures t[i].id != t[j].id
        {
          assert t[i] == bs[i + 1] && t[j] == bs[j + 1];
        }
      }
      UniqueBulletsOnce(t, x);
      if bs[0] == x {
        forall k | 0 <= k < |t|
          ensures t[k] != x
        {
          assert t[k] == bs[k + 1];
        }
        assert x !in t;
      }
    }
  }

  /** Reference definition of first-occurrence removal, by recursion on the list. */
  function RemoveFirst(es: seq<Enemy>, id: nat): seq<Enemy>
    decreases |es|
  {
    if |es| == 0 then []
    else if es[0].id == id then es[1..]
    else [es[0]] + RemoveFirst(es[1..], id)
  }

  /** How many enemies of the list carry the identity. */
  function CountId(es: seq<Enemy>, id: nat): nat
    decreases |es|
  {
    if |es| == 0 then 0
    else (if es[0].id == id then 1 else 0) + CountId(es[1..], id)
  }

  /** An identity counted in the list is held at some position. */
  lemma {:induction false} CountedIsPresent(es: seq<Enemy>, id: nat)
    requires CountId(es, id) > 0
    ensures exists j | 0 <= j < |es| :: es[j].id == id
    decreases |es|
  {
    if es[0].id != id {
      CountedIsPresent(es[1..], id);
      var j :| 0 <= j < |es[1..]| && es[1..][j].id == id;
      assert es[j + 1].id == id;
    }
  }

  /** First-match removal takes one copy of the identity, when there is
      one, and leaves every other count alone. */
  lemma {:induction false} RemoveFirstCount(es: seq<Enemy>, id: nat, other: nat)
    ensures CountId(RemoveFirst(es, id), other)
            == CountId(es, other) - (if other == id && CountId(es, id) > 0 then 1 else 0)
    decreases |es|
  {
    if |es| > 0 && es[0].id != id {
      RemoveFirstCount(es[1..], id, other);
      assert ([es[0]] + RemoveFirst(es[1..], id))[1..] == RemoveFirst(es[1..], id);
    }
  }

  lemma {:induction false} RemoveEnemyIsRemoveFirst(es: seq<Enemy>, id: nat)
    ensures RemoveEnemy(es, id) == RemoveFirst(es, id)
    decreases |es|
  {
    if |es| == 0 {
    } else if es[0].id == id {
      assert es[..0] + es[1..] == es[1..];
    } else {
      RemoveEnemyIsRemoveFirst(es[1..], id);
      RemoveEnemyPastHead(es, id);
    }
  }

  /** Removal skips a head that is a different object. */
  lemma RemoveEnemyPastHead(es: seq<Enemy>, id: nat)
    requires |es| > 0 && es[0].id != id
    ensures RemoveEnemy(es, id) == [es[0]] + RemoveEnemy(es[1..], id)
  {
    var t := es[1..];
    var k := IndexOf(t, id);
    assert IndexOf(es, id) == if k == -1 then -1 else k + 1;
    if k != -1 {
      PastHeadFound(es, id, k);
    } else {
      assert RemoveEnemy(t, id) == t;
      assert RemoveEnemy(es, id) == es;
    }
  }

  lemma PastHeadFound(es: seq<Enemy>, id: nat, k: nat)
    requires |es| > 0 && IndexOf(es[1..], id) == k && IndexOf(es, id) == k + 1
    ensures RemoveEnemy(es, id) == [es[0]] + RemoveEnemy(es[1..], id)
  {
    RemoveEnemyFound(es[1..], id, k);
    RemoveEnemyFound(es, id, k + 1);
    CutPastHead(es, k);
  }

  /** Removing the enemy `IndexOf` finds cuts out exactly that position. */
  lemma RemoveEnemyFound(es: seq<Enemy>, id: nat, k: nat)
    requires IndexOf(es, id) == k
    ensures RemoveEnemy(es, id) == es[..k] + es[k+1..]
  {
  }

  lemma CutPastHead(es: seq<Enemy>, k: nat)
    requires k + 1 < |es|
    ensures es[..k+1] + es[k+2..] == [es[0]] + (es[1..][..k] + es[1..][k+1..])
  {
    assert es[..k+1] == [es[0]] + es[1..][..k];
    assert es[k+2..] == es[1..][k+1..];
  }

  /** Removing an object takes out its first occurrence and keeps every
      other enemy, in order. */
  lemma RemoveEnemyFirstOccurrence(es: seq<Enemy>, k: nat)
    requires k < |es|
    requires forall j | 0 <= j < k :: es[j].id != es[k].id
    ensures RemoveEnemy(es, es[k].id) == es[..k] + es[k+1..]
  {
    assert IndexOf(es, es[k].id) == k;
  }

  /** With unique identities, removing the object held at position `k`
      removes exactly that position. */
  lemma RemoveEnemyAt(es: seq<Enemy>, k: nat)
    requires UniqueIds(es) && k < |es|
    ensures RemoveEnemy(es, es[k].id) == es[..k] + es[k+1..]
  {
    RemoveEnemyFirstOccurrence(es, k);
  }

  /** `array.splice(i, 1)`: removes position `i`, or nothing past the end. */
  function Splice<T>(xs: seq<T>, i: nat): (r: seq<T>)
    ensures i < |xs| ==> |r| == |xs| - 1 && r[..i] == xs[..i] && r[i..] == xs[i+1..]
    ensures |xs| <= i ==> r == xs
    ensures multiset(r) <= multiset(xs)
  {
    if i < |xs| then
      assert xs == xs[..i] + [xs[i]] + xs[i+1..];
      xs[..i] + xs[i+1..]
    else xs
  }
}
