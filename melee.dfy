/** The melee combat system of src/melee_combat_system.rs: every living
    attacker with a melee intent against a living target queues
    `max(0, power - defense)` damage for it when that is positive, and all
    melee intents are dropped afterwards. Combat stats are only read. */
module MeleeCombat {
  import opened Constants
  import opened MapGrid
  import opened Components

  /** The damage of one blow: the attacker's power less the target's
      defense, never negative. */
  function Damage(attacker: CombatStats, target: CombatStats): (d: int)
    ensures d >= 0
    ensures d >= attacker.power - target.defense
    ensures d == 0 || d == attacker.power - target.defense
  {
    Max(0, attacker.power - target.defense)
  }

  /** A target's damage queue, empty when it has none. */
  function QueueOf(queues: map<Entity, seq<int>>, e: Entity): seq<int> {
    if e in queues then queues[e] else []
  }

  /** `SufferDamage::new_damage`: appends an amount to the victim's queue,
      creating the queue when the victim has none. */
  function NewDamage(queues: map<Entity, seq<int>>, victim: Entity, amount: int): (r: map<Entity, seq<int>>)
    ensures r.Keys == queues.Keys + {victim}
    ensures forall e :: QueueOf(r, e) == if e == victim then QueueOf(queues, e) + [amount] else QueueOf(queues, e)
  {
    queues[victim := QueueOf(queues, victim) + [amount]]
  }

  /** The queues after one blow, if any. */
  function Apply(queues: map<Entity, seq<int>>, blow: Option<(Entity, int)>): map<Entity, seq<int>> {
    if blow.Some? then NewDamage(queues, blow.value.0, blow.value.1) else queues
  }

  /** Entity `k` takes part in the join over names, stats and intents. */
  predicate Joined(k: Entity, names: map<Entity, string>, stats: map<Entity, CombatStats>,
                   intents: map<Entity, WantsToMelee>) {
    k in names && k in stats && k in intents
  }

  /** The lookups the system unwraps succeed for entity `k`: a living
      attacker's target has stats, and a living target also has a name. */
  predicate Resolvable(k: Entity, names: map<Entity, string>, stats: map<Entity, CombatStats>,
                       intents: map<Entity, WantsToMelee>) {
    Joined(k, names, stats, intents) && stats[k].hp > 0 ==>
      var t := intents[k].target;
      t in stats && (stats[t].hp > 0 ==> t in names)
  }

  /** The target and amount entity `k`'s intent queues, if it queues any. */
  function Blow(k: Entity, names: map<Entity, string>, stats: map<Entity, CombatStats>,
                intents: map<Entity, WantsToMelee>): (r: Option<(Entity, int)>)
    requires Resolvable(k, names, stats, intents)
    ensures r.Some? <==>
      Joined(k, names, stats, intents) && stats[k].hp > 0 && stats[intents[k].target].hp > 0 &&
      stats[k].power > stats[intents[k].target].defense
    ensures r.Some? ==>
      (r.value.0 == intents[k].target && r.value.0 in stats &&
       r.value.1 == stats[k].power - stats[r.value.0].defense > 0)
  {
    if Joined(k, names, stats, intents) && stats[k].hp > 0 then
      var target := intents[k].target;
      if stats[target].hp > 0 then
        var damage := Damage(stats[k], stats[target]);
        if damage == 0 then None else Some((target, damage))
      else None
    else None
  }

  predicate AllResolvable(k: nat, n: nat, names: map<Entity, string>, stats: map<Entity, CombatStats>,
                          intents: map<Entity, WantsToMelee>) {
    forall j :: k <= j < n ==> Resolvable(j, names, stats, intents)
  }

  /** The join loop of the system from entity `k` on: the damage queues it
      leaves. Only targets with stats gain a queue. */
  function MeleeFrom(queues: map<Entity, seq<int>>, k: nat, n: nat, names: map<Entity, string>,
                     stats: map<Entity, CombatStats>, intents: map<Entity, WantsToMelee>): (r: map<Entity, seq<int>>)
    requires AllResolvable(k, n, names, stats, intents)
    ensures forall v :: v in r ==> v in queues || v in stats
    decreases n - k
  {
    if k >= n then queues
    else
      MeleeFrom(Apply(queues, Blow(k, names, stats, intents)), k + 1, n, names, stats, intents)
  }

  /** The amounts the attackers `k..n` queue for `v`, in order. */
  function DamageTo(v: Entity, k: nat, n: nat, names: map<Entity, string>, stats: map<Entity, CombatStats>,
                    intents: map<Entity, WantsToMelee>): seq<int>
    requires AllResolvable(k, n, names, stats, intents)
    decreases n - k
  {
    if k >= n then []
    else
      Dealt(v, Blow(k, names, stats, intents)) + DamageTo(v, k + 1, n, names, stats, intents)
  }

  /** The amount one blow queues for `v`, if it is aimed at `v`. */
  function Dealt(v: Entity, blow: Option<(Entity, int)>): seq<int> {
    if blow.Some? && blow.value.0 == v then [blow.value.1] else []
  }

  /** Each target's queue afterwards is its old queue followed by the
      amounts its attackers dealt, in attacker order. */
  lemma {:induction false} QueueAfter(queues: map<Entity, seq<int>>, k: nat, n: nat, names: map<Entity, string>,
                                      stats: map<Entity, CombatStats>, intents: map<Entity, WantsToMelee>, v: Entity)
    requires AllResolvable(k, n, names, stats, intents)
    ensures QueueOf(MeleeFrom(queues, k, n, names, stats, intents), v) ==
            QueueOf(queues, v) + DamageTo(v, k, n, names, stats, intents)
    decreases n - k
  {
    if k < n {
      var blow := Blow(k, names, stats, intents);
      var next := Apply(queues, blow);
      MeleeStep(queues, k, n, names, stats, intents, v);
      QueueAfter(next, k + 1, n, names, stats, intents, v);
      ApplyQueue(queues, blow, v);
      Regroup(QueueOf(queues, v), Dealt(v, blow), DamageTo(v, k + 1, n, names, stats, intents),
              QueueOf(next, v), QueueOf(MeleeFrom(next, k + 1, n, names, stats, intents), v));
    }
  }

  /** One unfolding of the join loop and of the amounts it deals. */
  lemma MeleeStep(queues: map<Entity, seq<int>>, k: nat, n: nat, names: map<Entity, string>,
                  stats: map<Entity, CombatStats>, intents: map<Entity, WantsToMelee>, v: Entity)
    requires k < n && AllResolvable(k, n, names, stats, intents)
    ensures AllResolvable(k + 1, n, names, stats, intents)
    ensures MeleeFrom(queues, k, n, names, stats, intents) ==
            MeleeFrom(Apply(queues, Blow(k, names, stats, intents)), k + 1, n, names, stats, intents)
    ensures DamageTo(v, k, n, names, stats, intents) ==
            Dealt(v, Blow(k, names, stats, intents)) + DamageTo(v, k + 1, n, names, stats, intents)
  {
  }

  /** Appending in two steps is appending the concatenation. */
  lemma Regroup(before: seq<int>, dealt: seq<int>, rest: seq<int>, mid: seq<int>, after: seq<int>)
    requires mid == before + dealt && after == mid + rest
    ensures after == before + (dealt + rest)
  {
  }

  lemma ApplyQueue(queues: map<Entity, seq<int>>, blow: Option<(Entity, int)>, v: Entity)
    ensures QueueOf(Apply(queues, blow), v) == QueueOf(queues, v) + Dealt(v, blow)
  {
  }

  /** Every queued amount is positive and equals the power of a living
      attacker of `v` less the defense of `v`, which is alive. */
  lemma {:induction false} DamageToEntries(v: Entity, k: nat, n: nat, names: map<Entity, string>,
                                           stats: map<Entity, CombatStats>, intents: map<Entity, WantsToMelee>, x: int)
    requires AllResolvable(k, n, names, stats, intents)
    requires x in DamageTo(v, k, n, names, stats, intents)
    ensures x > 0 && v in stats && stats[v].hp > 0
    ensures exists j ::
      (k <= j < n && Joined(j, names, stats, intents) && stats[j].hp > 0 &&
       intents[j].target == v && x == Damage(stats[j], stats[v]))
    decreases n - k
  {
    var blow := Blow(k, names, stats, intents);
    if blow.Some? && blow.value.0 == v && x == blow.value.1 {
      assert Joined(k, names, stats, intents) && stats[k].hp > 0;
    } else {
      DamageToEntries(v, k + 1, n, names, stats, intents, x);
    }
  }

  /** A target whose hp is not positive gains no damage. */
  lemma {:induction false} DeadTargetSpared(v: Entity, k: nat, n: nat, names: map<Entity, string>,
                                            stats: map<Entity, CombatStats>, intents: map<Entity, WantsToMelee>)
    requires AllResolvable(k, n, names, stats, intents)
    requires v in stats && stats[v].hp <= 0
    ensures DamageTo(v, k, n, names, stats, intents) == []
    decreases n - k
  {
    if k < n {
      DeadTargetSpared(v, k + 1, n, names, stats, intents);
    }
  }

  /** An attacker whose hp is not positive queues nothing: removing its
      intent does not change the outcome. */
  lemma {:induction false} DeadAttackerIdle(a: Entity, queues: map<Entity, seq<int>>, k: nat, n: nat,
                                            names: map<Entity, string>, stats: map<Entity, CombatStats>,
                                            intents: map<Entity, WantsToMelee>)
    requires AllResolvable(k, n, names, stats, intents)
    requires a in stats && stats[a].hp <= 0
    ensures AllResolvable(k, n, names, stats, intents - {a})
    ensures MeleeFrom(queues, k, n, names, stats, intents) == MeleeFrom(queues, k, n, names, stats, intents - {a})
    decreases n - k
  {
    var others := intents - {a};
    assert forall j :: Resolvable(j, names, stats, intents) ==> Resolvable(j, names, stats, others);
    if k < n {
      assert Blow(k, names, stats, intents) == Blow(k, names, stats, others);
      DeadAttackerIdle(a, Apply(queues, Blow(k, names, stats, intents)), k + 1, n, names, stats, intents);
    }
  }

  /** A single living attacker `a` of a living `v` queues exactly
      `Damage(a, v)` for it when that is positive, and nothing otherwise. */
  lemma {:induction false} SingleAttacker(a: Entity, v: Entity, k: nat, n: nat, names: map<Entity, string>,
                                          stats: map<Entity, CombatStats>, intents: map<Entity, WantsToMelee>)
    requires AllResolvable(k, n, names, stats, intents)
    requires k <= a < n && Joined(a, names, stats, intents) && intents[a].target == v
    requires v in stats && stats[a].hp > 0 && stats[v].hp > 0
    requires forall j :: k <= j < n && j != a && j in intents ==> intents[j].target != v
    ensures var d := Damage(stats[a], stats[v]);
      DamageTo(v, k, n, names, stats, intents) == if d > 0 then [d] else []
    decreases n - k
  {
    if k < a {
      SingleAttacker(a, v, k + 1, n, names, stats, intents);
    } else {
      NoAttackers(v, k + 1, n, names, stats, intents);
    }
  }

  /** Without an intent against `v`, nothing is queued for `v`. */
  lemma {:induction false} NoAttackers(v: Entity, k: nat, n: nat, names: map<Entity, string>,
                                       stats: map<Entity, CombatStats>, intents: map<Entity, WantsToMelee>)
    requires AllResolvable(k, n, names, stats, intents)
    requires forall j :: k <= j < n && j in intents ==> intents[j].target != v
    ensures DamageTo(v, k, n, names, stats, intents) == []
    decreases n - k
  {
    if k < n {
      NoAttackers(v, k + 1, n, names, stats, intents);
    }
  }

  // ---------------------------------------------------------------------
  // The system
  // ---------------------------------------------------------------------

  /** The body of the join for one attacker. */
  method Strike(entity: Entity, w: World)
    requires w.Valid() && Resolvable(entity, w.names, w.combatStats, w.wantsToMelee)
    modifies w`sufferDamage
    ensures w.Valid()
    ensures w.sufferDamage == Apply(old(w.sufferDamage), Blow(entity, w.names, w.combatStats, w.wantsToMelee))
  {
    if entity in w.names && entity in w.combatStats && entity in w.wantsToMelee {
      var stats := w.combatStats[entity];
      var wantsMelee := w.wantsToMelee[entity];
      if stats.hp > 0 {
        var targetStats := w.combatStats[wantsMelee.target];
        if targetStats.hp > 0 {
          var damage := Damage(stats, targetStats);
          if damage != 0 {
            w.sufferDamage := NewDamage(w.sufferDamage, wantsMelee.target, damage);
          }
        }
      }
    }
  }

  /** `MeleeCombatSystem::run`. */
  method Run(w: World)
    requires w.Valid() && AllResolvable(0, w.next, w.names, w.combatStats, w.wantsToMelee)
    modifies w`sufferDamage, w`wantsToMelee
    ensures w.Valid()
    ensures w.sufferDamage == MeleeFrom(old(w.sufferDamage), 0, w.next, w.names, w.combatStats, old(w.wantsToMelee))
    ensures w.wantsToMelee == map[]
  {
    ghost var start := w.sufferDamage;
    var n := w.next;
    for entity := 0 to n
      invariant w.Valid() && w.wantsToMelee == old(w.wantsToMelee)
      invariant MeleeFrom(w.sufferDamage, entity, n, w.names, w.combatStats, w.wantsToMelee) ==
                MeleeFrom(start, 0, n, w.names, w.combatStats, w.wantsToMelee)
    {
      Strike(entity, w);
    }
    w.wantsToMelee := map[];
  }
}
