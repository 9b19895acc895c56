/** The contact path of the enemy half of a tick: every enemy, after its
    pursuit step, that is within 1.5 units of the player deals 20 damage
    and is removed. Pursuit, the health-bar display and the proximity
    blink are geometry or cosmetics; `contact(id)` says whether enemy `id`
    ends its pursuit step within reach of the player. */
module EnemyAI {
  import opened Entities
  import opened GameSession

  const ContactDamage: int := 20

  /** How many enemies of the list reach the player. */
  function Contacts(es: seq<Enemy>, contact: nat -> bool): (n: nat)
    ensures n <= |es|
    decreases |es|
  {
    if |es| == 0 then 0
    else (if contact(es[0].id) then 1 else 0) + Contacts(es[1..], contact)
  }

  /** The enemies of the list that do not reach the player, in order. */
  function Survivors(es: seq<Enemy>, contact: nat -> bool): (r: seq<Enemy>)
    ensures |r| + Contacts(es, contact) == |es|
    ensures forall e | e in r :: e in es && !contact(e.id)
    decreases |es|
  {
    if |es| == 0 then []
    else (if contact(es[0].id) then [] else [es[0]]) + Survivors(es[1..], contact)
  }

  /** One enemy reaches the player: `takeDamage(20)`, then `removeEnemy`. */
  function Strike(s: Session, e: Enemy): (r: Session)
    ensures r.health == s.health - ContactDamage
    ensures r.enemies == RemoveEnemy(s.enemies, e.id) && |r.enemies| <= |s.enemies|
    ensures r.isGameOver <==> s.isGameOver || r.health <= 0
    ensures r.health <= 0 ==> r.spawnTimer == None && !r.gameStarted
    ensures r.health > 0 ==> r.spawnTimer == s.spawnTimer && r.gameStarted == s.gameStarted
    ensures r == s.(health := r.health, isGameOver := r.isGameOver, gameStarted := r.gameStarted,
                    spawnTimer := r.spawnTimer, enemies := r.enemies)
  {
    Despawn(TakeDamage(s, ContactDamage), e.id)
  }

  /** The contact loop over a fixed list of enemies, each visited once. */
  function Pursue(s: Session, pending: seq<Enemy>, contact: nat -> bool): (r: Session)
    ensures r.health == s.health - ContactDamage * Contacts(pending, contact)
    ensures r.isGameOver <==> s.isGameOver || (Contacts(pending, contact) > 0 && r.health <= 0)
    ensures r.gameStarted <==> s.gameStarted && !(Contacts(pending, contact) > 0 && r.health <= 0)
    ensures Contacts(pending, contact) == 0 ==> r == s
    ensures Contacts(pending, contact) > 0 && r.health <= 0 ==> r.spawnTimer == None
    ensures r.health > 0 ==> r.spawnTimer == s.spawnTimer
    ensures r.enemies == Cull(s.enemies, pending, contact)
    ensures multiset(r.enemies) <= multiset(s.enemies) && |r.enemies| <= |s.enemies|
    ensures r == s.(health := r.health, isGameOver := r.isGameOver, gameStarted := r.gameStarted,
                    spawnTimer := r.spawnTimer, enemies := r.enemies)
    decreases |pending|
  {
    if |pending| == 0 then s
    else
      var e := pending[0];
      var next := if contact(e.id) then Strike(s, e) else s;
      Pursue(next, pending[1..], contact)
  }

  /** `updateEnemies` (contact path), with every enemy alive at the start
      of the tick visited exactly once. */
  function UpdateEnemies(s: Session, contact: nat -> bool): (r: Session)
    ensures r.health == s.health - ContactDamage * Contacts(s.enemies, contact)
    ensures r.isGameOver <==> s.isGameOver || (Contacts(s.enemies, contact) > 0 && r.health <= 0)
    ensures r.gameStarted <==> s.gameStarted && !(Contacts(s.enemies, contact) > 0 && r.health <= 0)
    ensures Contacts(s.enemies, contact) > 0 && r.health <= 0 ==> r.spawnTimer == None
    ensures r.health > 0 ==> r.spawnTimer == s.spawnTimer
    ensures r.health <= s.health && r.score == s.score && r.bullets == s.bullets
    ensures multiset(r.enemies) <= multiset(s.enemies) && |r.enemies| <= |s.enemies|
    ensures r == s.(health := r.health, isGameOver := r.isGameOver, gameStarted := r.gameStarted,
                    spawnTimer := r.spawnTimer, enemies := r.enemies)
  {
    Pursue(s, s.enemies, contact)
  }

  /** The enemy list the contact loop leaves behind: each pending enemy
      that reaches the player is removed from the list by identity. */
  function Cull(es: seq<Enemy>, pending: seq<Enemy>, contact: nat -> bool): seq<Enemy>
    decreases |pending|
  {
    if |pending| == 0 then es
    else
      var e := pending[0];
      Cull(if contact(e.id) then RemoveEnemy(es, e.id) else es, pending[1..], contact)
  }

  /** The contact loop only ever removes enemies from the list. */
  lemma {:induction false} CullShrinks(es: seq<Enemy>, pending: seq<Enemy>, contact: nat -> bool)
    ensures multiset(Cull(es, pending, contact)) <= multiset(es)
    ensures |Cull(es, pending, contact)| <= |es|
    decreases |pending|
  {
    if |pending| > 0 {
      var e := pending[0];
      var next := if contact(e.id) then RemoveEnemy(es, e.id) else es;
      CullShrinks(next, pending[1..], contact);
    }
  }

  /** When every identity still to visit is held at least as often in the
      list, the loop removes exactly one enemy per contact. */
  lemma {:induction false} CullCount(es: seq<Enemy>, pending: seq<Enemy>, contact: nat -> bool)
    requires forall id :: CountId(pending, id) <= CountId(es, id)
    ensures |Cull(es, pending, contact)| + Contacts(pending, contact) == |es|
    decreases |pending|
  {
    if |pending| > 0 {
      var e := pending[0];
      forall id
        ensures CountId(pending[1..], id) <= CountId(pending, id)
      {
      }
      if contact(e.id) {
        var next := RemoveEnemy(es, e.id);
        assert CountId(pending, e.id) > 0;
        CountedIsPresent(es, e.id);
        RemoveEnemyIsRemoveFirst(es, e.id);
        forall id
          ensures CountId(pending[1..], id) <= CountId(next, id)
        {
          RemoveFirstCount(es, e.id, id);
        }
        CullCount(next, pending[1..], contact);
      } else {
        CullCount(es, pending[1..], contact);
      }
    }
  }

  /** The corrected tick removes exactly one enemy per contact, so the
      health it takes is 20 for each enemy that leaves. */
  lemma UpdateEnemiesCount(s: Session, contact: nat -> bool)
    ensures |UpdateEnemies(s, contact).enemies| + Contacts(s.enemies, contact) == |s.enemies|
  {
    CullCount(s.enemies, s.enemies, contact);
  }

  /** With `kept` already visited and `pending` still to come, the loop
      removes exactly the pending enemies that reach the player. */
  lemma {:induction false} CullRemovesContacts(kept: seq<Enemy>, pending: seq<Enemy>, contact: nat -> bool)
    requires UniqueIds(kept + pending)
    ensures Cull(kept + pending, pending, contact) == kept + Survivors(pending, contact)
    decreases |pending|
  {
    if |pending| > 0 {
      var e := pending[0];
      var rest := pending[1..];
      if contact(e.id) {
        CullHitStep(kept, pending, contact);
        CullRemovesContacts(kept, rest, contact);
      } else {
        CullSkipStep(kept, pending, contact);
        CullRemovesContacts(kept + [e], rest, contact);
      }
    }
  }

  /** Visiting a pending enemy that reaches the player removes it. */
  lemma CullHitStep(kept: seq<Enemy>, pending: seq<Enemy>, contact: nat -> bool)
    requires |pending| > 0 && contact(pending[0].id) && UniqueIds(kept + pending)
    ensures Cull(kept + pending, pending, contact) == Cull(kept + pending[1..], pending[1..], contact)
    ensures Survivors(pending, contact) == Survivors(pending[1..], contact)
    ensures UniqueIds(kept + pending[1..])
  {
    RemoveVisited(kept, pending);
  }

  /** Visiting a pending enemy out of reach moves it to the visited prefix. */
  lemma CullSkipStep(kept: seq<Enemy>, pending: seq<Enemy>, contact: nat -> bool)
    requires |pending| > 0 && !contact(pending[0].id) && UniqueIds(kept + pending)
    ensures Cull(kept + pending, pending, contact) == Cull((kept + [pending[0]]) + pending[1..], pending[1..], contact)
    ensures kept + Survivors(pending, contact) == (kept + [pending[0]]) + Survivors(pending[1..], contact)
    ensures UniqueIds((kept + [pending[0]]) + pending[1..])
  {
    var e, rest := pending[0], pending[1..];
    assert pending == [e] + rest;
    Reassociate(kept, e, rest);
    assert Survivors(pending, contact) == [e] + Survivors(rest, contact);
    Reassociate(kept, e, Survivors(rest, contact));
  }

  lemma Reassociate(kept: seq<Enemy>, e: Enemy, rest: seq<Enemy>)
    ensures kept + ([e] + rest) == (kept + [e]) + rest
  {
  }

  /** Removing the enemy just visited leaves the visited prefix and the rest. */
  lemma RemoveVisited(kept: seq<Enemy>, pending: seq<Enemy>)
    requires |pending| > 0 && UniqueIds(kept + pending)
    ensures RemoveEnemy(kept + pending, pending[0].id) == kept + pending[1..]
    ensures UniqueIds(kept + pending[1..])
  {
    var es := kept + pending;
    RemoveEnemyAt(es, |kept|);
    assert es[..|kept|] == kept && es[|kept|+1..] == pending[1..];
    DropKeepsUnique(es, |kept|);
  }

  /** After the contact loop the enemies left are exactly those that did
      not reach the player, in their old order, and the player lost 20
      health for each one removed. */
  lemma UpdateEnemiesRemovesContacts(s: Session, contact: nat -> bool)
    requires UniqueIds(s.enemies)
    ensures UpdateEnemies(s, contact).enemies == Survivors(s.enemies, contact)
    ensures s.health - UpdateEnemies(s, contact).health
              == ContactDamage * (|s.enemies| - |UpdateEnemies(s, contact).enemies|)
  {
    CullRemovesContacts([], s.enemies, contact);
    assert [] + s.enemies == s.enemies;
    assert [] + Survivors(s.enemies, contact) == Survivors(s.enemies, contact);
  }

  lemma UpdateEnemiesKeepsValid(s: Session, contact: nat -> bool)
    requires Valid(s)
    ensures Valid(UpdateEnemies(s, contact))
  {
    var r := UpdateEnemies(s, contact);
    UpdateEnemiesRemovesContacts(s, contact);
    SurvivorsKeepUnique(s.enemies, contact);
    forall e | e in r.enemies
      ensures e.id < r.nextId
    {
      assert e in multiset(r.enemies);
    }
  }

  lemma {:induction false} SurvivorsKeepUnique(es: seq<Enemy>, contact: nat -> bool)
    requires UniqueIds(es)
    ensures UniqueIds(Survivors(es, contact))
    decreases |es|
  {
    if |es| > 0 {
      var rest := es[1..];
      HeadUnlikeRest(es);
      SurvivorsKeepUnique(rest, contact);
      if !contact(es[0].id) {
        ConsKeepsUnique(es[0], Survivors(rest, contact));
      }
    }
  }

  /** In a list of distinct identities the tail is distinct too, and no
      enemy in it shares the head's identity. */
  lemma HeadUnlikeRest(es: seq<Enemy>)
    requires |es| > 0 && UniqueIds(es)
    ensures UniqueIds(es[1..])
    ensures forall x | x in es[1..] :: x.id != es[0].id
  {
    forall x | x in es[1..]
      ensures x.id != es[0].id
    {
      var m :| 0 <= m < |es[1..]| && es[1..][m] == x;
      assert es[m + 1] == x;
    }
    forall i, j | 0 <= i < j < |es[1..]|
      ensures es[1..][i].id != es[1..][j].id
    {
      assert es[1..][i] == es[i + 1] && es[1..][j] == es[j + 1];
    }
  }

  /** Putting an enemy with a fresh identity in front keeps identities distinct. */
  lemma ConsKeepsUnique(e: Enemy, tail: seq<Enemy>)
    requires UniqueIds(tail) && forall x | x in tail :: x.id != e.id
    ensures UniqueIds([e] + tail)
  {
    var r := [e] + tail;
    forall i, j | 0 <= i < j < |r|
      ensures r[i].id != r[j].id
    {
      if i == 0 {
        assert r[j] == tail[j - 1];
      } else {
        assert r[i] == tail[i - 1] && r[j] == tail[j - 1];
      }
    }
  }

  // ----- the loop as written -----

  /** `enemies.forEach` as the code has it: the loop runs over the indices
      of the list as it was when the loop began, visiting whatever sits at
      index `k` now and skipping indices past the current end. Removing an
      enemy shifts its successor into the index just visited, so that
      successor is skipped this tick. */
  function ForEachFrom(s: Session, k: nat, len: nat, contact: nat -> bool): (r: Session)
    ensures s.health - r.health == ContactDamage * (|s.enemies| - |r.enemies|)
    ensures |r.enemies| == |s.enemies| ==> r == s
    ensures r.isGameOver <==> s.isGameOver || (|r.enemies| < |s.enemies| && r.health <= 0)
    ensures r.gameStarted <==> s.gameStarted && !(|r.enemies| < |s.enemies| && r.health <= 0)
    ensures |r.enemies| < |s.enemies| && r.health <= 0 ==> r.spawnTimer == None
    ensures r.health > 0 ==> r.spawnTimer == s.spawnTimer
    ensures multiset(r.enemies) <= multiset(s.enemies) && |r.enemies| <= |s.enemies|
    ensures r.enemies == CullAsWritten(s.enemies, k, len, contact)
    ensures r == s.(health := r.health, isGameOver := r.isGameOver, gameStarted := r.gameStarted,
                    spawnTimer := r.spawnTimer, enemies := r.enemies)
    decreases len - k
  {
    if len <= k then s
    else if |s.enemies| <= k then ForEachFrom(s, k + 1, len, contact)
    else
      var e := s.enemies[k];
      var next := if contact(e.id) then Strike(s, e) else s;
      ForEachFrom(next, k + 1, len, contact)
  }

  /** `updateEnemies` (contact path) as the code has it. */
  function UpdateEnemiesAsWritten(s: Session, contact: nat -> bool): (r: Session)
    ensures s.health - r.health == ContactDamage * (|s.enemies| - |r.enemies|)
    ensures |r.enemies| == |s.enemies| ==> r == s
    ensures r.isGameOver <==> s.isGameOver || (|r.enemies| < |s.enemies| && r.health <= 0)
    ensures r.gameStarted <==> s.gameStarted && !(|r.enemies| < |s.enemies| && r.health <= 0)
    ensures |r.enemies| < |s.enemies| && r.health <= 0 ==> r.spawnTimer == None
    ensures r.health > 0 ==> r.spawnTimer == s.spawnTimer
    ensures r.health <= s.health && r.score == s.score && r.bullets == s.bullets
    ensures multiset(r.enemies) <= multiset(s.enemies) && |r.enemies| <= |s.enemies|
    ensures r == s.(health := r.health, isGameOver := r.isGameOver, gameStarted := r.gameStarted,
                    spawnTimer := r.spawnTimer, enemies := r.enemies)
  {
    ForEachFrom(s, 0, |s.enemies|, contact)
  }

  /** The enemy list the code's loop leaves behind, from index `k` on. */
  function CullAsWritten(es: seq<Enemy>, k: nat, len: nat, contact: nat -> bool): seq<Enemy>
    decreases len - k
  {
    if len <= k then es
    else if |es| <= k then CullAsWritten(es, k + 1, len, contact)
    else
      var id := es[k].id;
      CullAsWritten(if contact(id) then RemoveEnemy(es, id) else es, k + 1, len, contact)
  }

  /** The code's loop removes only enemies that reach the player: every
      enemy out of reach is still there afterwards. */
  lemma {:induction false} ForEachKeepsNonContacts(es: seq<Enemy>, k: nat, len: nat, contact: nat -> bool, x: Enemy)
    requires x in es && !contact(x.id)
    ensures x in CullAsWritten(es, k, len, contact)
    decreases len - k
  {
    if len <= k {
    } else if |es| <= k {
      ForEachKeepsNonContacts(es, k + 1, len, contact, x);
    } else if contact(es[k].id) {
      RemoveEnemyKeepsOthers(es, es[k].id, x);
      ForEachKeepsNonContacts(RemoveEnemy(es, es[k].id), k + 1, len, contact, x);
    } else {
      ForEachKeepsNonContacts(es, k + 1, len, contact, x);
    }
  }

  /** The code's loop keeps identities distinct. */
  lemma {:induction false} ForEachKeepsUnique(es: seq<Enemy>, k: nat, len: nat, contact: nat -> bool)
    requires UniqueIds(es)
    ensures UniqueIds(CullAsWritten(es, k, len, contact))
    decreases len - k
  {
    if len <= k {
    } else if |es| <= k {
      ForEachKeepsUnique(es, k + 1, len, contact);
    } else if contact(es[k].id) {
      RemoveEnemyKeepsUnique(es, es[k].id);
      ForEachKeepsUnique(RemoveEnemy(es, es[k].id), k + 1, len, contact);
    } else {
      ForEachKeepsUnique(es, k + 1, len, contact);
    }
  }

  /** The code removes at most what the corrected loop removes: every
      enemy the corrected loop keeps, the code keeps too. */
  lemma UpdateEnemiesAsWrittenKeepsMore(s: Session, contact: nat -> bool)
    requires UniqueIds(s.enemies)
    ensures forall x | x in UpdateEnemies(s, contact).enemies :: x in UpdateEnemiesAsWritten(s, contact).enemies
  {
    UpdateEnemiesRemovesContacts(s, contact);
    forall x | x in UpdateEnemies(s, contact).enemies
      ensures x in UpdateEnemiesAsWritten(s, contact).enemies
    {
      ForEachKeepsNonContacts(s.enemies, 0, |s.enemies|, contact, x);
    }
  }

  /** The code's contact loop keeps every identity distinct and issued. */
  lemma UpdateEnemiesAsWrittenKeepsValid(s: Session, contact: nat -> bool)
    requires Valid(s)
    ensures Valid(UpdateEnemiesAsWritten(s, contact))
  {
    var r := UpdateEnemiesAsWritten(s, contact);
    ForEachKeepsUnique(s.enemies, 0, |s.enemies|, contact);
    forall e | e in r.enemies
      ensures e.id < r.nextId
    {
      assert e in multiset(r.enemies);
    }
  }

  /** Two enemies reach the player in the same tick. The code removes the
      first, skips the second and deals 20 damage; every enemy should be
      checked, for 40 damage and an empty list. */
  lemma ForEachSkipsNeighbour(s: Session, a: Enemy, b: Enemy, contact: nat -> bool)
    requires s.enemies == [a, b] && a.id != b.id && contact(a.id) && contact(b.id)
    ensures UpdateEnemiesAsWritten(s, contact).enemies == [b]
    ensures UpdateEnemiesAsWritten(s, contact).health == s.health - ContactDamage
    ensures UpdateEnemies(s, contact).enemies == []
    ensures UpdateEnemies(s, contact).health == s.health - 2 * ContactDamage
  {
    RemoveEnemyAt(s.enemies, 0);
    var s1 := Strike(s, a);
    assert s1.enemies == [b];
    assert ForEachFrom(s1, 1, 2, contact) == ForEachFrom(s1, 2, 2, contact) == s1;
    UpdateEnemiesRemovesContacts(s, contact);
    assert Survivors([b], contact) == [];
  }

  /** Nothing stops contact damage once the game is over: with 20 health
      left and two enemies reaching the player, the first ends the game and
      the second still strikes, leaving -20. */
  lemma DamageAfterGameOver(s: Session, a: Enemy, b: Enemy, contact: nat -> bool)
    requires s.health == ContactDamage && !s.isGameOver
    requires s.enemies == [a, b] && a.id != b.id && contact(a.id) && contact(b.id)
    ensures UpdateEnemies(s, contact).health == -ContactDamage
    ensures UpdateEnemies(s, contact).isGameOver
  {
    assert Contacts([b], contact) == 1;
  }

  /** The loop as written does the same when a bystander sits between the
      two enemies that reach the player. */
  lemma DamageAfterGameOverAsWritten(s: Session, a: Enemy, x: Enemy, b: Enemy, contact: nat -> bool)
    requires s.health == ContactDamage && !s.isGameOver
    requires s.enemies == [a, x, b] && a.id != x.id && a.id != b.id && x.id != b.id
    requires contact(a.id) && contact(b.id) && !contact(x.id)
    ensures UpdateEnemiesAsWritten(s, contact).health == -ContactDamage
    ensures UpdateEnemiesAsWritten(s, contact).enemies == [x]
  {
    RemoveHeadOfThree(a, x, b);
    var s1 := Strike(s, a);
    RemoveLastOfTwo(x, b);
    var s2 := Strike(s1, b);
    assert ForEachFrom(s, 0, 3, contact) == ForEachFrom(s1, 1, 3, contact);
    assert ForEachFrom(s1, 1, 3, contact) == ForEachFrom(s2, 2, 3, contact);
    assert ForEachFrom(s2, 2, 3, contact) == ForEachFrom(s2, 3, 3, contact);
  }

  lemma RemoveHeadOfThree(a: Enemy, x: Enemy, b: Enemy)
    requires a.id != x.id && a.id != b.id
    ensures RemoveEnemy([a, x, b], a.id) == [x, b]
  {
    assert IndexOf([a, x, b], a.id) == 0;
    assert [a, x, b][1..] == [x, b];
  }

  lemma RemoveLastOfTwo(x: Enemy, b: Enemy)
    requires x.id != b.id
    ensures RemoveEnemy([x, b], b.id) == [x]
  {
    assert IndexOf([x, b], b.id) == 1;
    assert [x, b][..1] == [x] && [x, b][2..] == [];
  }
}
