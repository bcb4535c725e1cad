/**
 * The knowledge graph: an append-only fact log with a validity bit, changed only through
 * validated updates. It refines a plain picture of what is currently believed.
 */
module Graph {
  import opened Optional

  type Id = string

  datatype Value = Null | Text(s: string) | Other(json: string)

  datatype FactKind = Attribute | Relation

  // A relation keeps its target entity in `obj`, as text.
  datatype Fact = Fact(kind: FactKind, subject: Id, label_: string, obj: Value,
                       confidence: real, timestamp: string, source: string, valid: bool, provenance: string)

  datatype Entity = Entity(kind: string, createdAt: string, attributes: map<string, Value>)

  datatype Op = AddEntity | SetAttribute | AddRelation | RemoveRelation | InvalidateFact | UnknownOp

  datatype Update = Update(
    op: Op, entity: Id, entityKind: string, attribute: string, value: Value,
    subject: Id, label_: string, target: Id, factId: Id,
    confidence: real, timestamp: string, source: string, provenance: string)

  // ---- Schema --------------------------------------------------------------------------

  const MAX_ID_LENGTH: nat := 128
  const MAX_VALUE_LENGTH: nat := 1024

  predicate IdChar(c: char) {
    'a' <= c <= 'z' || 'A' <= c <= 'Z' || '0' <= c <= '9' || c == '_' || c == '-'
  }

  predicate AllIdChars(s: string) { forall i :: 0 <= i < |s| ==> IdChar(s[i]) }

  /** The pattern's final `$` also matches in front of one trailing newline. */
  predicate ValidEntityId(s: string) {
    && 1 <= |s| <= MAX_ID_LENGTH
    && (AllIdChars(s) || (|s| >= 2 && s[|s| - 1] == '\n' && AllIdChars(s[..|s| - 1])))
  }

  predicate SchemaOk(u: Update) {
    match u.op
    case AddEntity => ValidEntityId(u.entity)
    case SetAttribute =>
      && ValidEntityId(u.entity) && u.attribute != "" && u.value != Null
      && (u.value.Text? ==> |u.value.s| <= MAX_VALUE_LENGTH)
    case AddRelation => ValidEntityId(u.subject) && ValidEntityId(u.target) && u.label_ != ""
    case RemoveRelation => ValidEntityId(u.subject) && ValidEntityId(u.target) && u.label_ != ""
    case InvalidateFact => u.factId != ""
    case UnknownOp => false
  }

  function Clamp(x: real): (r: real)
    ensures 0.0 <= r <= 1.0
    ensures 0.0 <= x <= 1.0 ==> r == x
    ensures x <= 0.0 ==> r == 0.0
    ensures x >= 1.0 ==> r == 1.0
  {
    if x < 0.0 then 0.0 else if x > 1.0 then 1.0 else x
  }

  // ---- The abstract state --------------------------------------------------------------

  // What a fact is about.
  datatype Key = AttributeKey(entity: Id, name: string) | RelationKey(subject: Id, label_: string, target: Id)

  // A believed value and the one fact it rests on.
  datatype Believed = Believed(fact: Id, value: Value)

  datatype Belief = Belief(entities: set<Id>, current: map<Key, Believed>)

  datatype Policy = Policy(minConfidence: real, requireKnown: bool)

  ghost predicate Rests(b: Belief, k: Key, fact: Id) {
    k in b.current && b.current[k].fact == fact
  }

  // The belief that rests on `fact`, if any, is given up.
  ghost function Forget(b: Belief, fact: Id): (Belief, bool) {
    if k :| Rests(b, k, fact) then (b.(current := b.current - {k}), true) else (b, false)
  }

  /** What one update does to the picture, and whether it is accepted; `id` names the new fact. */
  ghost function Believe(p: Policy, b: Belief, u: Update, id: Id): (Belief, bool) {
    if !SchemaOk(u) || Clamp(u.confidence) < p.minConfidence then (b, false) else
      match u.op
      case AddEntity => (b.(entities := b.entities + {u.entity}), true)
      case SetAttribute =>
        if p.requireKnown && u.entity !in b.entities then (b, false) else
          (Belief(b.entities + {u.entity}, b.current[AttributeKey(u.entity, u.attribute) := Believed(id, u.value)]), true)
      case AddRelation =>
        var k := RelationKey(u.subject, u.label_, u.target);
        if p.requireKnown && !(u.subject in b.entities && u.target in b.entities) then (b, false) else
          (Belief(b.entities + {u.subject, u.target},
                  if k in b.current then b.current else b.current[k := Believed(id, Text(u.target))]), true)
      case RemoveRelation =>
        (b.(current := b.current - {RelationKey(u.subject, u.label_, u.target)}), true)
      case InvalidateFact => Forget(b, u.factId)
      case UnknownOp => (b, false)
  }

  // ---- The concrete state --------------------------------------------------------------

  function TextOf(v: Value): string { if v.Text? then v.s else "" }

  function KeyOf(f: Fact): Key {
    if f.kind.Attribute? then AttributeKey(f.subject, f.label_) else RelationKey(f.subject, f.label_, TextOf(f.obj))
  }

  /** The valid facts are exactly what is believed, each belief backed by exactly one of them. */
  ghost predicate Backed(facts: map<Id, Fact>, b: Belief) {
    && (forall f :: f in facts && facts[f].valid ==>
          KeyOf(facts[f]) in b.current && b.current[KeyOf(facts[f])] == Believed(f, facts[f].obj))
    && (forall k :: k in b.current ==>
          var f := b.current[k].fact;
          f in facts && facts[f].valid && KeyOf(facts[f]) == k && facts[f].obj == b.current[k].value)
    && (forall f :: f in facts && facts[f].kind.Relation? ==> facts[f].obj.Text?)
  }

  predicate Mirrors(entities: map<Id, Entity>, k: Key, v: Value) {
    match k
    case AttributeKey(e, a) => e in entities && a in entities[e].attributes && entities[e].attributes[a] == v
    case RelationKey(s, _, t) => s in entities && t in entities
  }

  /** All endpoints exist, and a believed attribute is mirrored on its entity. */
  ghost predicate Anchored(entities: map<Id, Entity>, b: Belief) {
    && entities.Keys == b.entities
    && forall k :: k in b.current ==> Mirrors(entities, k, b.current[k].value)
  }

  function Invalidated(f: Fact, reason: string): Fact {
    f.(valid := false,
       provenance := if reason == "" then f.provenance
                     else if f.provenance != "" then f.provenance + "; invalidated: " + reason
                     else "invalidated: " + reason)
  }

  /** Facts are never removed, never revalidated, and change only by being invalidated. */
  ghost predicate OnlyGrows(before: map<Id, Fact>, after: map<Id, Fact>) {
    forall f :: f in before ==>
      f in after && (after[f] == before[f] || (before[f].valid && exists reason :: after[f] == Invalidated(before[f], reason)))
  }

  lemma GrowsNot(facts: map<Id, Fact>)
    ensures OnlyGrows(facts, facts)
  {
  }

  lemma GrowsInTwo(a: map<Id, Fact>, b: map<Id, Fact>, c: map<Id, Fact>)
    requires OnlyGrows(a, b) && OnlyGrows(b, c)
    ensures OnlyGrows(a, c)
  {
    forall f | f in a
      ensures f in c && (c[f] == a[f] || (a[f].valid && exists reason :: c[f] == Invalidated(a[f], reason)))
    {
      assert f in b && f in c;
    }
  }

  /** An entity that is created because something mentions it. */
  function Ensured(entities: map<Id, Entity>, id: Id, now: string): map<Id, Entity> {
    if id in entities then entities else entities[id := Entity("unknown", now, map[])]
  }

  /** The entity table after an accepted update: new entities, and the mirrored attribute. */
  function EntitiesAfter(entities: map<Id, Entity>, u: Update, now: string): map<Id, Entity> {
    match u.op
    case AddEntity =>
      if u.entity in entities then entities else entities[u.entity := Entity(u.entityKind, u.timestamp, map[])]
    case SetAttribute => WithAttribute(Ensured(entities, u.entity, now), u)
    case AddRelation => Ensured(Ensured(entities, u.subject, now), u.target, now)
    case _ => entities
  }

  function WithAttribute(entities: map<Id, Entity>, u: Update): map<Id, Entity> {
    if u.entity !in entities then entities else
      var e := entities[u.entity];
      entities[u.entity := e.(attributes := e.attributes[u.attribute := u.value])]
  }

  class GraphStore {
    var entities: map<Id, Entity>
    var facts: map<Id, Fact>
    ghost var belief: Belief

    ghost predicate Valid()
      reads this
    {
      Backed(facts, belief) && Anchored(entities, belief)
    }

    constructor ()
      ensures Valid() && entities == map[] && facts == map[] && belief == Belief({}, map[])
    {
      entities, facts, belief := map[], map[], Belief({}, map[]);
    }

    /** `add_entity`: keeps the stored entity when the id is known. */
    method AddEntity(id: Id, e: Entity) returns (added: bool)
      modifies this`entities
      ensures added <==> id !in old(entities)
      ensures entities == if id in old(entities) then old(entities) else old(entities)[id := e]
    {
      added := id !in entities;
      if added { entities := entities[id := e]; }
    }

    method AddFact(id: Id, f: Fact)
      modifies this`facts
      ensures facts == old(facts)[id := f]
    {
      facts := facts[id := f];
    }

    /** `invalidate_fact`: false when there is no such fact or it is already invalid. */
    method InvalidateFact(id: Id, reason: string) returns (ok: bool)
      modifies this`facts
      ensures ok <==> id in old(facts) && old(facts)[id].valid
      ensures facts == if ok then old(facts)[id := Invalidated(old(facts)[id], reason)] else old(facts)
      ensures ok ==>
                var f, f' := old(facts)[id], facts[id];
                && !f'.valid && f' == f.(valid := false, provenance := f'.provenance)
                && f'.provenance == (if reason == "" then f.provenance
                                     else (if f.provenance == "" then "" else f.provenance + "; ") + "invalidated: " + reason)
    {
      if id !in facts || !facts[id].valid { return false; }
      facts := facts[id := Invalidated(facts[id], reason)];
      return true;
    }

    /** `facts_for_entity` with the updater's filter: the valid facts with the given key. */
    function ValidAttributeFacts(e: Id, a: string): (r: set<Id>)
      reads this
    {
      set f | f in facts && facts[f].subject == e && facts[f].valid && facts[f].kind.Attribute? && facts[f].label_ == a
    }

    function ValidRelationFacts(s: Id, p: string, t: Id): (r: set<Id>)
      reads this
    {
      set f | f in facts && facts[f].kind.Relation? && facts[f].subject == s && facts[f].label_ == p
              && facts[f].obj == Text(t) && facts[f].valid
    }
  }

  // ---- One key at a time ---------------------------------------------------------------

  // The valid facts with key `k`: none, or the one its belief rests on.
  ghost function FactsFor(facts: map<Id, Fact>, k: Key): set<Id> {
    set f | f in facts && facts[f].valid && KeyOf(facts[f]) == k
  }

  lemma FactsForKey(facts: map<Id, Fact>, b: Belief, k: Key)
    requires Backed(facts, b)
    ensures FactsFor(facts, k) == if k in b.current then {b.current[k].fact} else {}
  {
  }

  /** `facts` with each of `ids` invalidated. */
  ghost function InvalidateAll(facts: map<Id, Fact>, ids: set<Id>, reason: string): map<Id, Fact> {
    map f | f in facts :: if f in ids then Invalidated(facts[f], reason) else facts[f]
  }

  lemma ForgetKey(facts: map<Id, Fact>, b: Belief, k: Key, reason: string)
    requires Backed(facts, b)
    ensures Backed(InvalidateAll(facts, FactsFor(facts, k), reason), b.(current := b.current - {k}))
    ensures OnlyGrows(facts, InvalidateAll(facts, FactsFor(facts, k), reason))
  {
    FactsForKey(facts, b, k);
    var after := InvalidateAll(facts, FactsFor(facts, k), reason);
    forall f | f in facts
      ensures after[f] == facts[f] || (facts[f].valid && after[f] == Invalidated(facts[f], reason))
    {
    }
  }

  lemma LearnFact(facts: map<Id, Fact>, b: Belief, id: Id, f: Fact)
    requires Backed(facts, b) && id !in facts && f.valid && KeyOf(f) !in b.current
    requires f.kind.Relation? ==> f.obj.Text?
    ensures Backed(facts[id := f], b.(current := b.current[KeyOf(f) := Believed(id, f.obj)]))
    ensures OnlyGrows(facts, facts[id := f])
  {
  }

  lemma BackedIgnoresEntities(facts: map<Id, Fact>, b: Belief, entities: set<Id>)
    requires Backed(facts, b)
    ensures Backed(facts, b.(entities := entities))
  {
  }

  lemma RestsOnce(facts: map<Id, Fact>, b: Belief, k: Key, k': Key, f: Id)
    requires Backed(facts, b) && Rests(b, k, f) && Rests(b, k', f)
    ensures k == k'
  {
  }

  // Creating unknown entities disturbs no mirror.
  lemma AnchoredAfterEnsure(entities: map<Id, Entity>, b: Belief, id: Id, e: Entity)
    requires Anchored(entities, b) && id !in entities
    ensures Anchored(entities[id := e], b.(entities := b.entities + {id}))
  {
  }

  lemma AnchoredAfterSet(entities: map<Id, Entity>, b: Belief, e: Id, a: string, v: Value, f: Id)
    requires Anchored(entities, b) && e in entities
    ensures Anchored(entities[e := entities[e].(attributes := entities[e].attributes[a := v])],
                     b.(current := b.current[AttributeKey(e, a) := Believed(f, v)]))
  {
    var entities', b' := entities[e := entities[e].(attributes := entities[e].attributes[a := v])],
                         b.(current := b.current[AttributeKey(e, a) := Believed(f, v)]);
    forall k | k in b'.current
      ensures Mirrors(entities', k, b'.current[k].value)
    {
      if k in b.current { assert Mirrors(entities, k, b.current[k].value); }
    }
  }

  lemma AnchoredAfterRelate(entities: map<Id, Entity>, b: Belief, s: Id, p: string, t: Id, f: Id)
    requires Anchored(entities, b) && s in entities && t in entities
    ensures Anchored(entities, b.(current := b.current[RelationKey(s, p, t) := Believed(f, Text(t))]))
  {
  }

  lemma AnchoredAfterForget(entities: map<Id, Entity>, b: Belief, k: Key)
    requires Anchored(entities, b)
    ensures Anchored(entities, b.(current := b.current - {k}))
  {
  }

  function AttributeFact(u: Update): Fact {
    Fact(Attribute, u.entity, u.attribute, u.value, Clamp(u.confidence), u.timestamp, u.source, true, u.provenance)
  }

  function RelationFact(u: Update): Fact {
    Fact(Relation, u.subject, u.label_, Text(u.target), Clamp(u.confidence), u.timestamp, u.source, true, u.provenance)
  }

  lemma ReplaceInMap<K, V>(m: map<K, V>, k: K, v: V)
    ensures (m - {k})[k := v] == m[k := v]
  {
  }

  // ---- The updater ---------------------------------------------------------------------

  class GraphUpdater {
    const store: GraphStore
    const policy: Policy

    constructor (store: GraphStore, minConfidence: real, requireKnown: bool)
      ensures this.store == store && policy == Policy(Clamp(minConfidence), requireKnown)
    {
      this.store := store;
      policy := Policy(Clamp(minConfidence), requireKnown);
    }

    /** `_ensure_entity`: false when the entity is unknown and must not be created. */
    method EnsureEntity(id: Id, now: string) returns (ok: bool)
      requires store.Valid()
      modifies store
      ensures store.Valid() && store.facts == old(store.facts)
      ensures ok <==> id in old(store.belief).entities || !policy.requireKnown
      ensures !ok ==> store.entities == old(store.entities) && store.belief == old(store.belief)
      ensures ok ==> id in store.entities && store.entities == Ensured(old(store.entities), id, now)
      ensures ok ==> store.belief == old(store.belief).(entities := old(store.belief).entities + {id})
    {
      hide Backed;
      ghost var b := store.belief;
      BackedIgnoresEntities(store.facts, b, b.entities + {id});
      if id !in store.entities {
        if policy.requireKnown { return false; }
        AnchoredAfterEnsure(store.entities, b, id, Entity("unknown", now, map[]));
        var _ := store.AddEntity(id, Entity("unknown", now, map[]));
      } else {
        assert b.entities + {id} == b.entities;
      }
      store.belief := b.(entities := b.entities + {id});
      return true;
    }

    /** Invalidates the listed facts one after another. */
    method InvalidateEach(ids: set<Id>, reason: string)
      requires forall f :: f in ids ==> f in store.facts && store.facts[f].valid
      modifies store`facts
      ensures store.facts == InvalidateAll(old(store.facts), ids, reason)
    {
      var left := ids;
      while left != {}
        invariant left <= ids
        invariant store.facts == InvalidateAll(old(store.facts), ids - left, reason)
      {
        var f :| f in left;
        var _ := store.InvalidateFact(f, reason);
        left := left - {f};
      }
      assert ids - left == ids;
    }

    method OpAddEntity(u: Update)
      requires store.Valid()
      modifies store
      ensures store.Valid() && store.facts == old(store.facts)
      ensures store.belief == old(store.belief).(entities := old(store.belief).entities + {u.entity})
      ensures u.op.AddEntity? ==> store.entities == EntitiesAfter(old(store.entities), u, "")
    {
      hide Backed;
      ghost var b := store.belief;
      BackedIgnoresEntities(store.facts, b, b.entities + {u.entity});
      if u.entity !in store.entities {
        AnchoredAfterEnsure(store.entities, b, u.entity, Entity(u.entityKind, u.timestamp, map[]));
      }
      var added := store.AddEntity(u.entity, Entity(u.entityKind, u.timestamp, map[]));
      assert !added ==> b.entities + {u.entity} == b.entities;
      store.belief := b.(entities := b.entities + {u.entity});
    }

    /** Invalidates whatever is believed about an attribute. */
    method SupersedeAttribute(e: Id, a: string, reason: string)
      requires store.Valid()
      modifies store
      ensures store.Valid() && OnlyGrows(old(store.facts), store.facts)
      ensures store.facts.Keys == old(store.facts).Keys && store.entities == old(store.entities)
      ensures store.belief == old(store.belief).(current := old(store.belief).current - {AttributeKey(e, a)})
    {
      ghost var k := AttributeKey(e, a);
      var prior := store.ValidAttributeFacts(e, a);
      assert prior == FactsFor(store.facts, k);
      hide Backed, OnlyGrows, Anchored, FactsFor;
      ForgetKey(store.facts, store.belief, k, reason);
      AnchoredAfterForget(store.entities, store.belief, k);
      PriorIsValid(store.facts, k);
      InvalidateEach(prior, reason);
      store.belief := store.belief.(current := store.belief.current - {k});
    }

    // Adds the new fact and mirrors the value on the entity.
    method CommitAttribute(u: Update, id: Id)
      requires store.Valid() && id !in store.facts && u.entity in store.entities
      requires AttributeKey(u.entity, u.attribute) !in store.belief.current
      modifies store
      ensures store.Valid() && OnlyGrows(old(store.facts), store.facts)
      ensures store.facts.Keys == old(store.facts).Keys + {id}
      ensures store.belief == old(store.belief).(current := old(store.belief).current[AttributeKey(u.entity, u.attribute) := Believed(id, u.value)])
      ensures store.facts[id] == AttributeFact(u)
      ensures store.entities == WithAttribute(old(store.entities), u)
    {
      hide Backed, OnlyGrows, Anchored;
      ghost var b := store.belief;
      var newFact := AttributeFact(u);
      LearnFact(store.facts, b, id, newFact);
      store.AddFact(id, newFact);
      AnchoredAfterSet(store.entities, b, u.entity, u.attribute, u.value, id);
      var entity := store.entities[u.entity];
      store.entities := store.entities[u.entity := entity.(attributes := entity.attributes[u.attribute := u.value])];
      store.belief := b.(current := b.current[AttributeKey(u.entity, u.attribute) := Believed(id, u.value)]);
    }

    // The old value goes, the new one comes.
    method ReplaceAttribute(u: Update, id: Id)
      requires store.Valid() && id !in store.facts && u.entity in store.entities
      modifies store
      ensures store.Valid() && OnlyGrows(old(store.facts), store.facts)
      ensures store.facts.Keys == old(store.facts).Keys + {id}
      ensures store.belief == old(store.belief).(current := old(store.belief).current[AttributeKey(u.entity, u.attribute) := Believed(id, u.value)])
      ensures store.facts[id] == AttributeFact(u)
      ensures store.entities == WithAttribute(old(store.entities), u)
    {
      hide Backed, Anchored, OnlyGrows, GraphStore.Valid, WithAttribute;
      ghost var facts0, current := store.facts, store.belief.current;
      ghost var k, v := AttributeKey(u.entity, u.attribute), Believed(id, u.value);
      SupersedeAttribute(u.entity, u.attribute, "superseded by set_attribute at " + u.timestamp);
      ghost var facts1 := store.facts;
      assert store.belief.current == current - {k};
      CommitAttribute(u, id);
      GrowsInTwo(facts0, facts1, store.facts);
      ReplaceInMap(current, k, v);
    }

    method OpSetAttribute(u: Update, id: Id, now: string) returns (accepted: bool)
      requires store.Valid() && id !in store.facts
      modifies store
      ensures store.Valid() && OnlyGrows(old(store.facts), store.facts)
      ensures store.facts.Keys <= old(store.facts).Keys + {id}
      ensures accepted <==> !(policy.requireKnown && u.entity !in old(store.belief).entities)
      ensures !accepted ==> store.facts == old(store.facts) && store.entities == old(store.entities) && store.belief == old(store.belief)
      ensures accepted ==> store.entities == WithAttribute(Ensured(old(store.entities), u.entity, now), u)
      ensures accepted ==>
                store.belief == Belief(old(store.belief).entities + {u.entity},
                                       old(store.belief).current[AttributeKey(u.entity, u.attribute) := Believed(id, u.value)])
      ensures accepted ==> id in store.facts && store.facts[id] == AttributeFact(u)
    {
      GrowsNot(store.facts);
      hide Backed, Anchored, OnlyGrows, GraphStore.Valid, Ensured, WithAttribute, AttributeFact;
      accepted := EnsureEntity(u.entity, now);
      if accepted { ReplaceAttribute(u, id); }
    }

    // The fact of a relation that is not believed yet; an identical one is left alone.
    method CommitRelation(u: Update, id: Id)
      requires store.Valid() && id !in store.facts && u.subject in store.entities && u.target in store.entities
      modifies store
      ensures store.Valid() && OnlyGrows(old(store.facts), store.facts) && store.entities == old(store.entities)
      ensures store.facts.Keys <= old(store.facts).Keys + {id}
      ensures var k, b := RelationKey(u.subject, u.label_, u.target), old(store.belief);
              && (k in b.current ==> store.belief == b && store.facts == old(store.facts))
              && (k !in b.current ==>
                    && store.belief == b.(current := b.current[k := Believed(id, Text(u.target))])
                    && id in store.facts
                    && store.facts[id] == RelationFact(u))
    {
      ghost var b := store.belief;
      ghost var k := RelationKey(u.subject, u.label_, u.target);
      var existing := store.ValidRelationFacts(u.subject, u.label_, u.target);
      assert existing == FactsFor(store.facts, k);
      FactsForKey(store.facts, b, k);
      if existing != {} { return; }
      hide Backed, OnlyGrows, Anchored, FactsFor;
      var newFact := RelationFact(u);
      LearnFact(store.facts, b, id, newFact);
      AnchoredAfterRelate(store.entities, b, u.subject, u.label_, u.target, id);
      store.AddFact(id, newFact);
      store.belief := b.(current := b.current[k := Believed(id, Text(u.target))]);
    }

    method OpAddRelation(u: Update, id: Id, now: string) returns (accepted: bool)
      requires store.Valid() && id !in store.facts
      modifies store
      ensures store.Valid() && OnlyGrows(old(store.facts), store.facts)
      ensures store.facts.Keys <= old(store.facts).Keys + {id}
      ensures accepted <==> !(policy.requireKnown
                              && !(u.subject in old(store.belief).entities && u.target in old(store.belief).entities))
      ensures !accepted ==> store.facts == old(store.facts) && store.entities == old(store.entities) && store.belief == old(store.belief)
      ensures accepted ==> store.entities == Ensured(Ensured(old(store.entities), u.subject, now), u.target, now)
      ensures accepted ==>
                var k, b := RelationKey(u.subject, u.label_, u.target), old(store.belief);
                && store.belief == Belief(b.entities + {u.subject, u.target},
                                          if k in b.current then b.current else b.current[k := Believed(id, Text(u.target))])
                && (k in b.current ==> store.facts == old(store.facts))
                && (k !in b.current ==>
                      id in store.facts
                      && store.facts[id] == RelationFact(u))
    {
      GrowsNot(store.facts);
      EnsuredKeepsKnown(store.entities, u.subject, u.target, now);
      ghost var known := store.entities;
      ghost var b := store.belief;
      assert b.entities == known.Keys;
      hide Backed, Anchored, OnlyGrows, GraphStore.Valid, Ensured;
      accepted := EnsureEntity(u.subject, now);
      if !accepted { return; }
      accepted := EnsureEntity(u.target, now);
      if !accepted {
        assert b.entities + {u.subject} == b.entities;
        return;
      }
      assert b.entities + {u.subject} + {u.target} == b.entities + {u.subject, u.target};
      CommitRelation(u, id);
    }

    /** `remove_relation` asks nothing about the endpoints, whatever the policy. */
    method OpRemoveRelation(u: Update)
      requires store.Valid()
      modifies store
      ensures store.Valid() && OnlyGrows(old(store.facts), store.facts) && store.entities == old(store.entities)
      ensures store.facts.Keys == old(store.facts).Keys
      ensures store.belief == old(store.belief).(current := old(store.belief).current - {RelationKey(u.subject, u.label_, u.target)})
    {
      ghost var k := RelationKey(u.subject, u.label_, u.target);
      var found := store.ValidRelationFacts(u.subject, u.label_, u.target);
      assert found == FactsFor(store.facts, k);
      hide Backed, OnlyGrows, Anchored, FactsFor;
      ForgetKey(store.facts, store.belief, k, "removed by VLM at " + u.timestamp);
      AnchoredAfterForget(store.entities, store.belief, k);
      PriorIsValid(store.facts, k);
      InvalidateEach(found, "removed by VLM at " + u.timestamp);
      store.belief := store.belief.(current := store.belief.current - {k});
    }

    method OpInvalidateFact(u: Update) returns (accepted: bool)
      requires store.Valid()
      modifies store
      ensures store.Valid() && OnlyGrows(old(store.facts), store.facts) && store.entities == old(store.entities)
      ensures store.facts.Keys == old(store.facts).Keys
      ensures (store.belief, accepted) == Forget(old(store.belief), u.factId)
      ensures !accepted ==> store.facts == old(store.facts)
    {
      ghost var facts, b := store.facts, store.belief;
      accepted := store.InvalidateFact(u.factId, "invalidated by VLM at " + u.timestamp);
      if accepted {
        ghost var k := KeyOf(facts[u.factId]);
        FactsForKey(facts, b, k);
        assert store.facts == InvalidateAll(facts, {u.factId}, "invalidated by VLM at " + u.timestamp);
        ForgetOne(facts, b, k, u.factId);
        hide Backed, OnlyGrows, Anchored;
        ForgetKey(facts, b, k, "invalidated by VLM at " + u.timestamp);
        AnchoredAfterForget(store.entities, b, k);
        store.belief := b.(current := b.current - {k});
      }
    }

    /** `_apply_single`: one validated update, or nothing at all. `id` is the fresh id of a new fact. */
    method ApplySingle(u: Update, id: Id, now: string) returns (accepted: bool)
      requires store.Valid() && id !in store.facts
      modifies store
      ensures store.Valid() && OnlyGrows(old(store.facts), store.facts)
      ensures (store.belief, accepted) == Believe(policy, old(store.belief), u, id)
      ensures store.entities == if accepted then EntitiesAfter(old(store.entities), u, now) else old(store.entities)
      ensures !accepted ==> store.facts == old(store.facts)
      ensures store.facts.Keys <= old(store.facts).Keys + {id}
      ensures Clamp(u.confidence) < policy.minConfidence ==>
                !accepted && store.entities == old(store.entities) && store.belief == old(store.belief)
      ensures forall f :: f in store.facts && f !in old(store.facts) ==>
                var n := store.facts[f];
                && n.valid && n.confidence == Clamp(u.confidence) >= policy.minConfidence
                && (n.timestamp, n.source, n.provenance) == (u.timestamp, u.source, u.provenance)
                && if n.kind.Attribute?
                   then u.op.SetAttribute? && (n.subject, n.label_, n.obj) == (u.entity, u.attribute, u.value)
                   else u.op.AddRelation? && (n.subject, n.label_, n.obj) == (u.subject, u.label_, Text(u.target))
    {
      GrowsNot(store.facts);
      hide Backed, Anchored, OnlyGrows, GraphStore.Valid, Ensured, WithAttribute;
      if !SchemaOk(u) { return false; }
      if Clamp(u.confidence) < policy.minConfidence { return false; }
      match u.op {
        case AddEntity =>
          OpAddEntity(u);
          accepted := true;
        case SetAttribute => accepted := OpSetAttribute(u, id, now);
        case AddRelation => accepted := OpAddRelation(u, id, now);
        case RemoveRelation =>
          OpRemoveRelation(u);
          accepted := true;
        case InvalidateFact => accepted := OpInvalidateFact(u);
        case UnknownOp => accepted := false;
      }
    }

    /**
     * `apply`: the updates in order, a rejected one stopping nothing. `ids` are the fresh ids the
     * new facts draw on.
     */
    method Apply(us: seq<Update>, ids: seq<Id>, now: string) returns (results: seq<bool>, acceptedCount: nat, rejectedCount: nat)
      requires store.Valid() && |ids| == |us|
      requires forall i :: 0 <= i < |ids| ==> ids[i] !in store.facts
      requires forall i, j :: 0 <= i < j < |ids| ==> ids[i] != ids[j]
      modifies store
      ensures store.Valid() && OnlyGrows(old(store.facts), store.facts)
      ensures (store.belief, results) == BelieveAll(policy, old(store.belief), us, ids)
      ensures |results| == |us| == acceptedCount + rejectedCount
      ensures store.entities == EntitiesAll(old(store.entities), us, results, now)
      ensures forall e, a :: Stale(store.entities, store.belief, e, a) <==>
                LastTouchKills(Beliefs(policy, old(store.belief), us, ids), us, results, e, a,
                               Stale(old(store.entities), old(store.belief), e, a))
      ensures acceptedCount == Trues(results)
      ensures forall f :: f in store.facts && f !in old(store.facts) ==> store.facts[f].confidence >= policy.minConfidence
    {
      results, acceptedCount, rejectedCount := [], 0, 0;
      GrowsNot(store.facts);
      assert BelieveAll(policy, store.belief, us[..0], ids[..0]) == (store.belief, []);
      ghost var entities, belief := store.entities, store.belief;
      FreshFromFacts(store.facts, belief, ids);
      assert EntitiesAll(entities, us[..0], [], now) == entities && Trues([]) == 0;
      assert Confident(store.facts, store.facts, policy.minConfidence);
      hide Backed, Anchored, OnlyGrows, Believe, BelieveAll, GraphStore.Valid, EntitiesAfter, EntitiesAll, Trues,
           Stale, LastTouchKills, Beliefs, FreshIds, FactPerBelief, Confident;
      for i := 0 to |us|
        invariant store.Valid() && OnlyGrows(old(store.facts), store.facts)
        invariant (store.belief, results) == BelieveAll(policy, old(store.belief), us[..i], ids[..i])
        invariant |results| == i && store.entities == EntitiesAll(old(store.entities), us[..i], results, now)
        invariant i == acceptedCount + rejectedCount && acceptedCount == Trues(results)
        invariant forall j :: i <= j < |ids| ==> ids[j] !in store.facts
        invariant Confident(old(store.facts), store.facts, policy.minConfidence)
      {
        ghost var before := store.facts;
        OneMoreUpdate(policy, belief, entities, us, ids, results, now, i);
        var accepted := ApplySingle(us[i], ids[i], now);
        GrowsInTwo(old(store.facts), before, store.facts);
        ConfidentOneMore(old(store.facts), before, store.facts, policy.minConfidence);
        results := results + [accepted];
        if accepted { acceptedCount := acceptedCount + 1; } else { rejectedCount := rejectedCount + 1; }
      }
      assert us[..|us|] == us && ids[..|ids|] == ids;
      StaleEverywhere(policy, belief, entities, us, ids, now);
      ConfidentMeans(old(store.facts), store.facts, policy.minConfidence);
    }
  }

  // Every fact that was added is at least this confident.
  ghost predicate Confident(before: map<Id, Fact>, after: map<Id, Fact>, least: real) {
    forall f :: f in after && f !in before ==> after[f].confidence >= least
  }

  lemma ConfidentMeans(before: map<Id, Fact>, after: map<Id, Fact>, least: real)
    requires Confident(before, after, least)
    ensures forall f :: f in after && f !in before ==> after[f].confidence >= least
  {
  }

  lemma ConfidentOneMore(before: map<Id, Fact>, now: map<Id, Fact>, next: map<Id, Fact>, least: real)
    requires Confident(before, now, least) && Confident(now, next, least) && OnlyGrows(now, next)
    ensures Confident(before, next, least)
  {
  }

  lemma StaleEverywhere(p: Policy, b: Belief, entities: map<Id, Entity>, us: seq<Update>, ids: seq<Id>, now: string)
    requires FactPerBelief(b) && Anchored(entities, b) && FreshIds(b, ids) && |us| == |ids|
    ensures var (b', verdicts) := BelieveAll(p, b, us, ids);
            && |verdicts| == |us|
            && forall e, a :: Stale(EntitiesAll(entities, us, verdicts, now), b', e, a) <==>
                 LastTouchKills(Beliefs(p, b, us, ids), us, verdicts, e, a, Stale(entities, b, e, a))
  {
    hide BelieveAll, Stale, LastTouchKills, Beliefs, Anchored, FactPerBelief, FreshIds, EntitiesAll;
    StaleAfterBatch(p, b, entities, us, ids, now, "", "");
    var (b', verdicts) := BelieveAll(p, b, us, ids);
    forall e, a
      ensures Stale(EntitiesAll(entities, us, verdicts, now), b', e, a) <==>
              LastTouchKills(Beliefs(p, b, us, ids), us, verdicts, e, a, Stale(entities, b, e, a))
    {
      StaleAfterBatch(p, b, entities, us, ids, now, e, a);
    }
  }

  // One more update at the end of a batch, with its effect on the entities.
  lemma OneMoreUpdate(p: Policy, b: Belief, entities: map<Id, Entity>, us: seq<Update>, ids: seq<Id>, results: seq<bool>, now: string, i: nat)
    requires i < |us| == |ids|
    requires BelieveAll(p, b, us[..i], ids[..i]).1 == results && |results| == i
    ensures var (b', r) := Believe(p, BelieveAll(p, b, us[..i], ids[..i]).0, us[i], ids[i]);
            && BelieveAll(p, b, us[..i + 1], ids[..i + 1]) == (b', results + [r])
            && Trues(results + [r]) == Trues(results) + (if r then 1 else 0)
            && var shown := EntitiesAll(entities, us[..i], results, now);
               EntitiesAll(entities, us[..i + 1], results + [r], now) == if r then EntitiesAfter(shown, us[i], now) else shown
  {
    BelieveOneMore(p, b, us, ids, i);
    hide Believe, EntitiesAfter;
    var r := Believe(p, BelieveAll(p, b, us[..i], ids[..i]).0, us[i], ids[i]).1;
    assert (results + [r])[..i] == results && us[..i + 1][..i] == us[..i];
  }

  lemma FreshFromFacts(facts: map<Id, Fact>, b: Belief, ids: seq<Id>)
    requires Backed(facts, b)
    requires forall i :: 0 <= i < |ids| ==> ids[i] !in facts
    requires forall i, j :: 0 <= i < j < |ids| ==> ids[i] != ids[j]
    ensures FactPerBelief(b) && FreshIds(b, ids)
  {
    BackedIsFactPerBelief(facts, b);
  }

  lemma EnsuredKeepsKnown(entities: map<Id, Entity>, a: Id, b: Id, now: string)
    ensures a in entities ==> Ensured(entities, a, now) == entities
    ensures a in Ensured(entities, a, now) && a in Ensured(Ensured(entities, a, now), b, now)
  {
  }

  lemma PriorIsValid(facts: map<Id, Fact>, k: Key)
    ensures forall f :: f in FactsFor(facts, k) ==> f in facts && facts[f].valid
  {
  }

  // A valid fact names its own key, and no other key rests on it.
  lemma ForgetOne(facts: map<Id, Fact>, b: Belief, k: Key, f: Id)
    requires Backed(facts, b) && f in facts && facts[f].valid && k == KeyOf(facts[f])
    ensures Forget(b, f) == (b.(current := b.current - {k}), true)
  {
    assert Rests(b, k, f);
    var k' :| Rests(b, k', f) && Forget(b, f) == (b.(current := b.current - {k'}), true);
    RestsOnce(facts, b, k, k', f);
  }

  function Trues(rs: seq<bool>): nat {
    if rs == [] then 0 else Trues(rs[..|rs| - 1]) + if rs[|rs| - 1] then 1 else 0
  }

  // ---- Runs ----------------------------------------------------------------------------

  ghost function BelieveAll(p: Policy, b: Belief, us: seq<Update>, ids: seq<Id>): (Belief, seq<bool>)
    requires |ids| == |us|
  {
    if us == [] then (b, []) else
      var n := |us| - 1;
      var (b', rs) := BelieveAll(p, b, us[..n], ids[..n]);
      var (b'', r) := Believe(p, b', us[n], ids[n]);
      (b'', rs + [r])
  }

  lemma BelieveOneMore(p: Policy, b: Belief, us: seq<Update>, ids: seq<Id>, i: nat)
    requires i < |us| == |ids|
    ensures var (b', rs) := BelieveAll(p, b, us[..i], ids[..i]);
            var (b'', r) := Believe(p, b', us[i], ids[i]);
            BelieveAll(p, b, us[..i + 1], ids[..i + 1]) == (b'', rs + [r])
  {
    assert us[..i + 1][..i] == us[..i] && ids[..i + 1][..i] == ids[..i];
  }

  /** A batch may be cut anywhere. */
  lemma {:induction false} BatchSplits(p: Policy, b: Belief, us: seq<Update>, vs: seq<Update>, ids: seq<Id>, jds: seq<Id>)
    requires |us| == |ids| && |vs| == |jds|
    ensures var (b1, rs) := BelieveAll(p, b, us, ids);
            var (b2, ss) := BelieveAll(p, b1, vs, jds);
            BelieveAll(p, b, us + vs, ids + jds) == (b2, rs + ss)
  {
    hide Believe;
    if vs == [] {
      var rs := BelieveAll(p, b, us, ids).1;
      assert us + vs == us && ids + jds == ids && rs + [] == rs;
    } else {
      var n := |vs| - 1;
      var (b1, rs) := BelieveAll(p, b, us, ids);
      var (b2, ss) := BelieveAll(p, b1, vs[..n], jds[..n]);
      var r := Believe(p, b2, vs[n], jds[n]).1;
      assert rs + (ss + [r]) == rs + ss + [r];
      BatchSplits(p, b, us, vs[..n], ids, jds[..n]);
      assert (us + vs)[..|us| + n] == us + vs[..n] && (ids + jds)[..|us| + n] == ids + jds[..n];
    }
  }

  lemma RejectedChangesNothing(p: Policy, b: Belief, u: Update, id: Id)
    requires !Believe(p, b, u, id).1
    ensures Believe(p, b, u, id).0 == b
  {
  }

  // The updates of a batch that were accepted, and their ids.
  ghost function Accepted<T>(xs: seq<T>, verdicts: seq<bool>): (r: seq<T>)
    requires |xs| == |verdicts|
    ensures |r| <= |xs|
  {
    if xs == [] then [] else
      var n := |xs| - 1;
      Accepted(xs[..n], verdicts[..n]) + if verdicts[n] then [xs[n]] else []
  }

  lemma {:induction false} AcceptedAlign<S, T>(xs: seq<S>, ys: seq<T>, verdicts: seq<bool>)
    requires |xs| == |ys| == |verdicts|
    ensures |Accepted(xs, verdicts)| == |Accepted(ys, verdicts)|
  {
    if xs != [] { AcceptedAlign(xs[..|xs| - 1], ys[..|xs| - 1], verdicts[..|xs| - 1]); }
  }

  /** A rejected update leaves no trace: the accepted ones alone lead to the same belief, and all are accepted again. */
  lemma {:induction false} RejectedLeaveNoTrace(p: Policy, b: Belief, us: seq<Update>, ids: seq<Id>)
    requires |us| == |ids|
    ensures var (b', rs) := BelieveAll(p, b, us, ids);
            && |rs| == |us| && |Accepted(us, rs)| == |Accepted(ids, rs)|
            && BelieveAll(p, b, Accepted(us, rs), Accepted(ids, rs)).0 == b'
            && false !in BelieveAll(p, b, Accepted(us, rs), Accepted(ids, rs)).1
  {
    hide Believe;
    if us != [] {
      var n := |us| - 1;
      var (b0, rs0) := BelieveAll(p, b, us[..n], ids[..n]);
      RejectedLeaveNoTrace(p, b, us[..n], ids[..n]);
      var rs := BelieveAll(p, b, us, ids).1;
      assert rs[..n] == rs0;
      AcceptedAlign(us, ids, rs);
      var vs, jds := Accepted(us[..n], rs0), Accepted(ids[..n], rs0);
      if rs[n] {
        var vs', jds' := vs + [us[n]], jds + [ids[n]];
        assert vs'[..|vs|] == vs && jds'[..|jds|] == jds;
        assert Accepted(us, rs) == vs' && Accepted(ids, rs) == jds';
        var ss := BelieveAll(p, b, vs, jds).1;
        assert BelieveAll(p, b, vs', jds') == (Believe(p, b0, us[n], ids[n]).0, ss + [true]);
      } else {
        RejectedChangesNothing(p, b0, us[n], ids[n]);
        assert vs + [] == vs && jds + [] == jds;
      }
    }
  }

  /** What the two queries return: the fact a belief rests on if there is one, and never two. */
  lemma QueriesAnswerBelief(store: GraphStore, e: Id, name: string, target: Id)
    requires store.Valid()
    ensures store.ValidAttributeFacts(e, name) ==
            var k := AttributeKey(e, name); if k in store.belief.current then {store.belief.current[k].fact} else {}
    ensures store.ValidRelationFacts(e, name, target) ==
            var k := RelationKey(e, name, target); if k in store.belief.current then {store.belief.current[k].fact} else {}
  {
    assert store.ValidAttributeFacts(e, name) == FactsFor(store.facts, AttributeKey(e, name));
    assert store.ValidRelationFacts(e, name, target) == FactsFor(store.facts, RelationKey(e, name, target));
    FactsForKey(store.facts, store.belief, AttributeKey(e, name));
    FactsForKey(store.facts, store.belief, RelationKey(e, name, target));
  }

  // ---- What an update does, spelled out ------------------------------------------------

  /** An entity id: letters, digits, `_` and `-`, at most 128 characters with the newline that may follow. */
  lemma EntityIdExactly(s: string)
    ensures ValidEntityId(s) <==> (exists t :: (s == t || s == t + ['\n']) && 1 <= |t| && |s| <= 128 && Worded(t))
    ensures Worded(s) <==> forall c :: c in s ==> var k := c as int; 97 <= k <= 122 || 65 <= k <= 90 || 48 <= k <= 57 || k == 95 || k == 45
  {
    if ValidEntityId(s) {
      var t := if AllIdChars(s) then s else s[..|s| - 1];
      assert s == t || s == t + ['\n'];
      assert AllIdChars(t);
      assert Worded(t) by { forall i | 0 <= i < |t| ensures IdChar(t[i]) { } }
    }
    if t :| (s == t || s == t + ['\n']) && 1 <= |t| && |s| <= 128 && Worded(t) {
      assert AllIdChars(t);
      if s != t { assert s[..|s| - 1] == t; }
    }
    assert forall i :: 0 <= i < |s| ==> s[i] in s;
  }

  // Letters, digits, `_` and `-` by their codes.
  predicate Worded(s: string) {
    forall i :: 0 <= i < |s| ==>
      var k := s[i] as int; 97 <= k <= 122 || 65 <= k <= 90 || 48 <= k <= 57 || k == 95 || k == 45
  }

  /** Exactly which updates are accepted, operation by operation; nothing below the threshold ever is. */
  lemma VerdictExactly(p: Policy, b: Belief, u: Update, id: Id)
    ensures Believe(p, b, u, id).1 <==>
            && Clamp(u.confidence) >= p.minConfidence
            && match u.op
               case AddEntity => ValidEntityId(u.entity)
               case SetAttribute =>
                 && ValidEntityId(u.entity) && u.attribute != "" && u.value != Null
                 && (u.value.Text? ==> |u.value.s| <= 1024) && (p.requireKnown ==> u.entity in b.entities)
               case AddRelation =>
                 && ValidEntityId(u.subject) && ValidEntityId(u.target) && u.label_ != ""
                 && (p.requireKnown ==> u.subject in b.entities && u.target in b.entities)
               case RemoveRelation => ValidEntityId(u.subject) && ValidEntityId(u.target) && u.label_ != ""
               case InvalidateFact => u.factId != "" && exists k :: k in b.current && b.current[k].fact == u.factId
               case UnknownOp => false
    ensures !Believe(p, b, u, id).1 ==> Believe(p, b, u, id).0 == b
  {
    if k :| k in b.current && b.current[k].fact == u.factId { assert Rests(b, k, u.factId); }
  }

  /** Exactly what an accepted update changes: one entry at most, and the entities it mentions. */
  lemma EffectExactly(p: Policy, b: Belief, u: Update, id: Id, k: Key)
    requires FactPerBelief(b) && Believe(p, b, u, id).1
    ensures var b' := Believe(p, b, u, id).0;
            && Entry(b', k) ==
               (match u.op
                case SetAttribute => if k == AttributeKey(u.entity, u.attribute) then Some(Believed(id, u.value)) else Entry(b, k)
                case AddRelation =>
                  if k == RelationKey(u.subject, u.label_, u.target) && k !in b.current
                  then Some(Believed(id, Text(u.target))) else Entry(b, k)
                case RemoveRelation => if k == RelationKey(u.subject, u.label_, u.target) then None else Entry(b, k)
                case InvalidateFact => if k in b.current && b.current[k].fact == u.factId then None else Entry(b, k)
                case _ => Entry(b, k))
            && b'.entities == b.entities + (match u.op
                                            case AddEntity => {u.entity}
                                            case SetAttribute => {u.entity}
                                            case AddRelation => {u.subject, u.target}
                                            case _ => {})
  {
    if u.op.InvalidateFact? { ForgetExactly(b, k, u.factId); }
  }

  /** The entity table only grows: known entities keep their kind and date, and change at most in the attribute set. */
  lemma EntitiesOnlyGrow(entities: map<Id, Entity>, u: Update, now: string, e: Id)
    ensures var after := EntitiesAfter(entities, u, now);
            && (e in entities ==>
                  && e in after && (after[e].kind, after[e].createdAt) == (entities[e].kind, entities[e].createdAt)
                  && after[e].attributes == if u.op.SetAttribute? && e == u.entity
                                            then entities[e].attributes[u.attribute := u.value] else entities[e].attributes)
            && (e in after && e !in entities ==>
                  after[e] == match u.op
                              case AddEntity => Entity(u.entityKind, u.timestamp, map[])
                              case SetAttribute => Entity("unknown", now, map[u.attribute := u.value])
                              case _ => Entity("unknown", now, map[]))
  {
    assert map[][u.attribute := u.value] == map[u.attribute := u.value];
  }

  /** The counts of a batch are the numbers of its verdicts. */
  lemma {:induction false} TruesExactly(rs: seq<bool>)
    ensures Trues(rs) == |set i | 0 <= i < |rs| && rs[i]|
  {
    var at := set i | 0 <= i < |rs| && rs[i];
    if rs != [] {
      var n := |rs| - 1;
      TruesExactly(rs[..n]);
      var before := set i | 0 <= i < |rs[..n]| && rs[..n][i];
      assert at == before + (if rs[n] then {n} else {});
    } else {
      assert at == {};
    }
  }

  // ---- Updates about other things ------------------------------------------------------

  // The facts that beliefs rest on.
  ghost function Rested(b: Belief): set<Id> { set k | k in b.current :: b.current[k].fact }

  // The ids a batch draws on are new and distinct.
  ghost predicate FreshIds(b: Belief, ids: seq<Id>) {
    && (forall i :: 0 <= i < |ids| ==> ids[i] !in Rested(b))
    && (forall i, j :: 0 <= i < j < |ids| ==> ids[i] != ids[j])
  }

  // No fact is behind two beliefs.
  ghost predicate FactPerBelief(b: Belief) {
    forall k, k', f :: Rests(b, k, f) && Rests(b, k', f) ==> k == k'
  }

  lemma BackedIsFactPerBelief(facts: map<Id, Fact>, b: Belief)
    requires Backed(facts, b)
    ensures FactPerBelief(b) && Rested(b) <= facts.Keys
  {
  }

  lemma ForgetExactly(b: Belief, k: Key, f: Id)
    requires FactPerBelief(b)
    ensures Forget(b, f).1 <==> exists j :: Rests(b, j, f)
    ensures k in Forget(b, f).0.current <==> k in b.current && !Rests(b, k, f)
    ensures k in Forget(b, f).0.current ==> Forget(b, f).0.current[k] == b.current[k]
    ensures Forget(b, f).0.entities == b.entities
  {
    if j :| Rests(b, j, f) {
      var k' :| Rests(b, k', f) && Forget(b, f) == (b.(current := b.current - {k'}), true);
    }
  }

  // An update leaves an entry alone, drops it, or makes a new one that rests on the new fact.
  lemma EntryAfter(p: Policy, b: Belief, u: Update, id: Id, k: Key)
    requires FactPerBelief(b)
    ensures var b' := Believe(p, b, u, id).0;
            Entry(b', k) == Entry(b, k) || Entry(b', k) == None || (k == KeyOfUpdate(u) && b'.current[k].fact == id)
  {
    if u.op.InvalidateFact? { ForgetExactly(b, k, u.factId); }
  }

  lemma BelieveKeepsFacts(p: Policy, b: Belief, u: Update, id: Id)
    requires FactPerBelief(b) && id !in Rested(b)
    ensures var b' := Believe(p, b, u, id).0; FactPerBelief(b') && Rested(b') <= Rested(b) + {id}
  {
    hide Believe;
    var b' := Believe(p, b, u, id).0;
    assert forall k, f :: Rests(b, k, f) ==> f in Rested(b);
    forall k, k', f | Rests(b', k, f) && Rests(b', k', f) ensures k == k' {
      EntryAfter(p, b, u, id, k);
      EntryAfter(p, b, u, id, k');
      assert f != id ==> Rests(b, k, f) && Rests(b, k', f);
    }
    forall f | f in Rested(b') ensures f in Rested(b) + {id} {
      var k :| k in b'.current && b'.current[k].fact == f;
      EntryAfter(p, b, u, id, k);
      assert f == id || Rests(b, k, f);
    }
  }

  lemma {:induction false} BatchKeepsFacts(p: Policy, b: Belief, us: seq<Update>, ids: seq<Id>)
    requires FactPerBelief(b) && FreshIds(b, ids) && |us| == |ids|
    ensures var b' := BelieveAll(p, b, us, ids).0;
            FactPerBelief(b') && (forall f :: f in Rested(b') ==> f in Rested(b) || f in ids)
  {
    if us != [] {
      var n := |us| - 1;
      BatchKeepsFacts(p, b, us[..n], ids[..n]);
      hide Believe, FactPerBelief, Rested;
      BelieveKeepsFacts(p, BelieveAll(p, b, us[..n], ids[..n]).0, us[n], ids[n]);
    }
  }

  // The update names neither the key nor one of the facts.
  predicate Unrelated(u: Update, k: Key, facts: set<Id>) {
    match u.op
    case SetAttribute => AttributeKey(u.entity, u.attribute) != k
    case AddRelation => RelationKey(u.subject, u.label_, u.target) != k
    case RemoveRelation => RelationKey(u.subject, u.label_, u.target) != k
    case InvalidateFact => u.factId !in facts
    case _ => true
  }

  function Entry(b: Belief, k: Key): Option<Believed> { if k in b.current then Some(b.current[k]) else None }

  // The fact behind `k`, if any.
  function FactOf(b: Belief, k: Key): set<Id> { if k in b.current then {b.current[k].fact} else {} }

  // Equal but for `k`, and but for entities that no policy asks about.
  ghost predicate EqualBut(p: Policy, b1: Belief, b2: Belief, k: Key) {
    && (p.requireKnown ==> b1.entities == b2.entities)
    && (forall j :: j != k ==> Entry(b1, j) == Entry(b2, j))
  }

  lemma ForgetIgnores(p: Policy, b1: Belief, b2: Belief, f: Id, k: Key)
    requires EqualBut(p, b1, b2, k) && FactPerBelief(b1) && FactPerBelief(b2)
    requires f !in FactOf(b1, k) + FactOf(b2, k)
    ensures Forget(b1, f).1 == Forget(b2, f).1 && EqualBut(p, Forget(b1, f).0, Forget(b2, f).0, k)
    ensures Entry(Forget(b1, f).0, k) == Entry(b1, k) && Entry(Forget(b2, f).0, k) == Entry(b2, k)
  {
    ForgetExactly(b1, k, f);
    ForgetExactly(b2, k, f);
    forall j | j != k ensures Entry(Forget(b1, f).0, j) == Entry(Forget(b2, f).0, j) {
      assert Entry(b1, j) == Entry(b2, j);
      ForgetExactly(b1, j, f);
      ForgetExactly(b2, j, f);
    }
    assert forall j :: Rests(b1, j, f) <==> Rests(b2, j, f) by {
      forall j ensures Rests(b1, j, f) <==> Rests(b2, j, f) {
        assert j != k ==> Entry(b1, j) == Entry(b2, j);
      }
    }
  }

  // An unrelated update does the same to both, and nothing to `k`.
  lemma StepIgnores(p: Policy, b1: Belief, b2: Belief, u: Update, id: Id, k: Key)
    requires EqualBut(p, b1, b2, k) && FactPerBelief(b1) && FactPerBelief(b2)
    requires Unrelated(u, k, FactOf(b1, k) + FactOf(b2, k))
    ensures var (c1, r1) := Believe(p, b1, u, id); var (c2, r2) := Believe(p, b2, u, id);
            && r1 == r2 && EqualBut(p, c1, c2, k)
            && Entry(c1, k) == Entry(b1, k) && Entry(c2, k) == Entry(b2, k)
  {
    if u.op.InvalidateFact? {
      ForgetIgnores(p, b1, b2, u.factId, k);
    } else {
      var c1, c2 := Believe(p, b1, u, id).0, Believe(p, b2, u, id).0;
      assert u.op.AddRelation? ==> Entry(b1, KeyOfUpdate(u)) == Entry(b2, KeyOfUpdate(u));
      forall j | j != k ensures Entry(c1, j) == Entry(c2, j) {
        assert Entry(b1, j) == Entry(b2, j);
      }
    }
  }

  lemma {:induction false} BatchIgnores(p: Policy, b1: Belief, b2: Belief, us: seq<Update>, ids: seq<Id>, k: Key)
    requires EqualBut(p, b1, b2, k) && FactPerBelief(b1) && FactPerBelief(b2) && |us| == |ids|
    requires FreshIds(b1, ids) && FreshIds(b2, ids)
    requires forall i :: 0 <= i < |us| ==> Unrelated(us[i], k, FactOf(b1, k) + FactOf(b2, k))
    ensures var (c1, r1) := BelieveAll(p, b1, us, ids); var (c2, r2) := BelieveAll(p, b2, us, ids);
            && r1 == r2 && EqualBut(p, c1, c2, k)
            && Entry(c1, k) == Entry(b1, k) && Entry(c2, k) == Entry(b2, k)
  {
    if us != [] {
      var n := |us| - 1;
      BatchIgnores(p, b1, b2, us[..n], ids[..n], k);
      BatchKeepsFacts(p, b1, us[..n], ids[..n]);
      BatchKeepsFacts(p, b2, us[..n], ids[..n]);
      hide Believe, FactPerBelief, Rested, EqualBut, Unrelated;
      StepIgnores(p, BelieveAll(p, b1, us[..n], ids[..n]).0, BelieveAll(p, b2, us[..n], ids[..n]).0, us[n], ids[n], k);
    }
  }

  lemma {:induction false} EntitiesStay(p: Policy, b: Belief, us: seq<Update>, ids: seq<Id>)
    requires |us| == |ids|
    ensures b.entities <= BelieveAll(p, b, us, ids).0.entities
  {
    if us != [] {
      var n := |us| - 1;
      EntitiesStay(p, b, us[..n], ids[..n]);
      EntitiesStayOnce(p, BelieveAll(p, b, us[..n], ids[..n]).0, us[n], ids[n]);
      hide Believe;
    }
  }

  lemma EntitiesStayOnce(p: Policy, b: Belief, u: Update, id: Id)
    ensures b.entities <= Believe(p, b, u, id).0.entities
  {
  }

  // What an update is about.
  function KeyOfUpdate(u: Update): Key {
    if u.op.SetAttribute? then AttributeKey(u.entity, u.attribute) else RelationKey(u.subject, u.label_, u.target)
  }

  /**
   * Adding an entity or a relation again, after any batch of updates about other things, is
   * accepted and changes nothing.
   */
  lemma RepeatsAreNoOps(p: Policy, b: Belief, u: Update, id: Id, mid: seq<Update>, ids: seq<Id>, id': Id)
    requires u.op.AddEntity? || u.op.AddRelation?
    requires FactPerBelief(b) && FreshIds(b, [id] + ids) && |mid| == |ids| && Believe(p, b, u, id).1
    requires u.op.AddRelation? ==>
               forall i :: 0 <= i < |mid| ==> Unrelated(mid[i], KeyOfUpdate(u), {id} + FactOf(b, KeyOfUpdate(u)))
    ensures var c := BelieveAll(p, Believe(p, b, u, id).0, mid, ids).0;
            Believe(p, c, u, id') == (c, true)
  {
    var k, b1 := KeyOfUpdate(u), Believe(p, b, u, id).0;
    var c := BelieveAll(p, b1, mid, ids).0;
    EntitiesStay(p, b1, mid, ids);
    if u.op.AddEntity? {
      assert c.entities + {u.entity} == c.entities;
    } else {
      FreshAfter(p, b, u, id, ids);
      forall i | 0 <= i < |mid| ensures Unrelated(mid[i], k, FactOf(b1, k) + FactOf(b1, k)) {
        assert Unrelated(mid[i], k, {id} + FactOf(b, k));
      }
      BatchIgnores(p, b1, b1, mid, ids, k);
      assert k in c.current by { assert Entry(c, k) == Entry(b1, k) && k in b1.current; }
      assert c.entities + {u.subject, u.target} == c.entities;
    }
  }

  lemma FreshAfter(p: Policy, b: Belief, u: Update, id: Id, ids: seq<Id>)
    requires FactPerBelief(b) && FreshIds(b, [id] + ids)
    ensures var b1 := Believe(p, b, u, id).0; FactPerBelief(b1) && FreshIds(b1, ids) && FreshIds(b, ids)
  {
    var all := [id] + ids;
    assert all[0] == id;
    forall i | 0 <= i < |ids| ensures ids[i] !in Rested(b) && ids[i] != id { assert all[i + 1] == ids[i]; }
    forall i, j | 0 <= i < j < |ids| ensures ids[i] != ids[j] { assert all[i + 1] == ids[i] && all[j + 1] == ids[j]; }
    hide Believe;
    BelieveKeepsFacts(p, b, u, id);
  }

  /**
   * The last word on a key stands as if it were the only one: with any batch of updates about
   * other things in between, which all fare as they would have without the first update,
   * removing a relation undoes adding it, and setting an attribute makes up for every earlier value.
   */
  lemma LaterUpdatesWin(p: Policy, b: Belief, first: Update, id: Id, mid: seq<Update>, ids: seq<Id>, last: Update, id': Id)
    requires FactPerBelief(b) && FreshIds(b, [id] + ids) && |mid| == |ids| && Believe(p, b, first, id).1
    requires (first.op.AddRelation? && last.op.RemoveRelation?) || (first.op.SetAttribute? && last.op.SetAttribute?)
    requires KeyOfUpdate(first) == KeyOfUpdate(last)
    requires forall i :: 0 <= i < |mid| ==> Unrelated(mid[i], KeyOfUpdate(first), {id} + FactOf(b, KeyOfUpdate(first)))
    ensures var (c1, r1) := BelieveAll(p, Believe(p, b, first, id).0, mid, ids);
            var (c2, r2) := BelieveAll(p, b, mid, ids);
            && r1 == r2
            && (Believe(p, c2, last, id').1 ==>
                  && Believe(p, c1, last, id').1
                  && Believe(p, c1, last, id').0.current == Believe(p, c2, last, id').0.current)
  {
    hide Believe, EqualBut, FactPerBelief, FreshIds, Unrelated, BelieveAll;
    var k, b1 := KeyOfUpdate(first), Believe(p, b, first, id).0;
    FreshAfter(p, b, first, id, ids);
    FirstWord(p, b, first, id);
    forall i | 0 <= i < |mid| ensures Unrelated(mid[i], k, FactOf(b1, k) + FactOf(b, k)) {
      UnrelatedToFewer(mid[i], k, {id} + FactOf(b, k), FactOf(b1, k) + FactOf(b, k));
    }
    BatchIgnores(p, b1, b, mid, ids, k);
    var c1, c2 := BelieveAll(p, b1, mid, ids).0, BelieveAll(p, b, mid, ids).0;
    if Believe(p, c2, last, id').1 { SameLastWord(p, c1, c2, last, id', k); }
  }

  lemma UnrelatedToFewer(u: Update, k: Key, facts: set<Id>, fewer: set<Id>)
    requires Unrelated(u, k, facts) && fewer <= facts
    ensures Unrelated(u, k, fewer)
  {
  }

  lemma FirstWord(p: Policy, b: Belief, u: Update, id: Id)
    requires (u.op.AddRelation? || u.op.SetAttribute?) && Believe(p, b, u, id).1
    ensures EqualBut(p, Believe(p, b, u, id).0, b, KeyOfUpdate(u))
    ensures FactOf(Believe(p, b, u, id).0, KeyOfUpdate(u)) <= {id} + FactOf(b, KeyOfUpdate(u))
  {
    if p.requireKnown { assert Believe(p, b, u, id).0.entities == b.entities; }
  }

  lemma SameLastWord(p: Policy, c1: Belief, c2: Belief, last: Update, id: Id, k: Key)
    requires EqualBut(p, c1, c2, k) && k == KeyOfUpdate(last) && (last.op.RemoveRelation? || last.op.SetAttribute?)
    requires Believe(p, c2, last, id).1
    ensures Believe(p, c1, last, id).1
    ensures Believe(p, c1, last, id).0.current == Believe(p, c2, last, id).0.current
  {
    var d1, d2 := Believe(p, c1, last, id).0, Believe(p, c2, last, id).0;
    forall j ensures Entry(d1, j) == Entry(d2, j) {
      assert j != k ==> Entry(c1, j) == Entry(c2, j);
    }
    EqualEntries(d1, d2);
  }

  lemma EqualEntries(b1: Belief, b2: Belief)
    requires forall j :: Entry(b1, j) == Entry(b2, j)
    ensures b1.current == b2.current
  {
    forall j ensures j in b1.current <==> j in b2.current { assert Entry(b1, j) == Entry(b2, j); }
    forall j | j in b1.current ensures b1.current[j] == b2.current[j] { assert Entry(b1, j) == Entry(b2, j); }
  }

  /**
   * The class comment promises otherwise, but `remove_relation` never looks at the entities: under
   * every policy it is accepted exactly for a well-formed update of sufficient confidence.
   */
  lemma RemoveIgnoresKnownEntities(p: Policy, b: Belief, u: Update, id: Id)
    requires u.op.RemoveRelation?
    ensures Believe(p, b, u, id).1 <==> SchemaOk(u) && Clamp(u.confidence) >= p.minConfidence
    ensures u.subject !in b.entities && (forall k :: k in b.current ==> k.AttributeKey? || k.subject in b.entities)
            ==> Believe(p, b, u, id).0 == b
  {
    assert u.subject !in b.entities && (forall k :: k in b.current ==> k.AttributeKey? || k.subject in b.entities)
           ==> b.current - {RelationKey(u.subject, u.label_, u.target)} == b.current;
  }

  /** An id with a newline behind it is valid exactly when the id is, and leaves room for it. */
  lemma NewlineIsAdmitted(s: string)
    ensures ValidEntityId(s + ['\n']) <==> 1 <= |s| < MAX_ID_LENGTH && AllIdChars(s)
  {
    var t := s + ['\n'];
    assert t[|s|] == '\n' && t[..|s|] == s;
  }

  // ---- The mirror ----------------------------------------------------------------------

  /** The entity shows a value for the attribute. */
  predicate Shown(entities: map<Id, Entity>, e: Id, a: string) {
    e in entities && a in entities[e].attributes
  }

  /** It shows one that nothing backs any more. */
  ghost predicate Stale(entities: map<Id, Entity>, b: Belief, e: Id, a: string) {
    Shown(entities, e, a) && AttributeKey(e, a) !in b.current
  }

  /** The entities show exactly what is believed about attributes. */
  ghost predicate MirrorExact(entities: map<Id, Entity>, b: Belief) {
    forall e, a :: Shown(entities, e, a) ==> AttributeKey(e, a) in b.current
  }

  function EntitiesNext(entities: map<Id, Entity>, u: Update, accepted: bool, now: string): map<Id, Entity> {
    if accepted then EntitiesAfter(entities, u, now) else entities
  }

  // An accepted update gives the attribute a value.
  predicate Sets(u: Update, accepted: bool, e: Id, a: string) {
    accepted && u.op.SetAttribute? && u.entity == e && u.attribute == a
  }

  // An accepted update invalidates the fact behind the attribute's value.
  ghost predicate Kills(b: Belief, u: Update, accepted: bool, e: Id, a: string) {
    accepted && u.op.InvalidateFact? && Rests(b, AttributeKey(e, a), u.factId)
  }

  lemma ShownAfter(entities: map<Id, Entity>, u: Update, accepted: bool, now: string, e: Id, a: string)
    ensures Shown(EntitiesNext(entities, u, accepted, now), e, a) <==> Shown(entities, e, a) || Sets(u, accepted, e, a)
  {
  }

  lemma AttributeAfter(p: Policy, b: Belief, u: Update, id: Id, e: Id, a: string)
    requires FactPerBelief(b)
    ensures var (b', accepted) := Believe(p, b, u, id);
            var k := AttributeKey(e, a);
            k in b'.current <==> Sets(u, accepted, e, a) || (k in b.current && !Kills(b, u, accepted, e, a))
  {
    if u.op.InvalidateFact? { ForgetExactly(b, AttributeKey(e, a), u.factId); }
  }

  /** One update and one attribute: it goes stale exactly when its fact is invalidated, and stops when a value is set. */
  lemma StaleAfter(p: Policy, b: Belief, entities: map<Id, Entity>, u: Update, id: Id, now: string, e: Id, a: string)
    requires FactPerBelief(b) && Anchored(entities, b)
    ensures var (b', accepted) := Believe(p, b, u, id);
            Stale(EntitiesNext(entities, u, accepted, now), b', e, a) <==>
            !Sets(u, accepted, e, a) && (Stale(entities, b, e, a) || Kills(b, u, accepted, e, a))
  {
    var accepted := Believe(p, b, u, id).1;
    hide Believe, EntitiesAfter, Forget;
    ShownAfter(entities, u, accepted, now, e, a);
    AttributeAfter(p, b, u, id, e, a);
    assert AttributeKey(e, a) in b.current ==> Mirrors(entities, AttributeKey(e, a), b.current[AttributeKey(e, a)].value);
  }

  /**
   * One update and all attributes: a mirror that is exact stays so if and only if the update
   * does not invalidate an attribute fact, which the caller can look up before.
   */
  lemma MirrorStaysExact(p: Policy, facts: map<Id, Fact>, b: Belief, entities: map<Id, Entity>, u: Update, id: Id, now: string)
    requires Backed(facts, b) && Anchored(entities, b) && MirrorExact(entities, b)
    ensures var (b', accepted) := Believe(p, b, u, id);
            MirrorExact(EntitiesNext(entities, u, accepted, now), b') <==>
            !(u.op.InvalidateFact? && u.factId != "" && Clamp(u.confidence) >= p.minConfidence
              && u.factId in facts && facts[u.factId].valid && facts[u.factId].kind.Attribute?)
  {
    var (b', accepted) := Believe(p, b, u, id);
    var entities' := EntitiesNext(entities, u, accepted, now);
    BackedIsFactPerBelief(facts, b);
    InvalidatesAnAttribute(p, facts, b, u, id);
    hide Believe, EntitiesNext, Backed, Anchored, Forget;
    forall e, a
      ensures Stale(entities', b', e, a) <==> Kills(b, u, accepted, e, a) && !Sets(u, accepted, e, a)
    {
      StaleAfter(p, b, entities, u, id, now, e, a);
    }
    ExactIsNeverStale(entities', b');
  }

  lemma InvalidatesAnAttribute(p: Policy, facts: map<Id, Fact>, b: Belief, u: Update, id: Id)
    requires Backed(facts, b)
    ensures var accepted := Believe(p, b, u, id).1;
            (exists e, a :: Kills(b, u, accepted, e, a)) <==>
            && u.op.InvalidateFact? && u.factId != "" && Clamp(u.confidence) >= p.minConfidence
            && u.factId in facts && facts[u.factId].valid && facts[u.factId].kind.Attribute?
  {
    BackedIsFactPerBelief(facts, b);
    if u.op.InvalidateFact? && u.factId in facts && facts[u.factId].valid {
      assert Rests(b, KeyOf(facts[u.factId]), u.factId);
    }
    var accepted := Believe(p, b, u, id).1;
    if accepted && u.op.InvalidateFact? {
      var k :| Rests(b, k, u.factId);
      assert KeyOf(facts[u.factId]) == k;
      if k.AttributeKey? { assert Kills(b, u, accepted, k.entity, k.name); }
    }
  }

  // ---- The mirror over a batch ---------------------------------------------------------

  /** The entity table after a batch with the given verdicts. */
  function EntitiesAll(entities: map<Id, Entity>, us: seq<Update>, verdicts: seq<bool>, now: string): map<Id, Entity>
    requires |us| == |verdicts|
  {
    if us == [] then entities else
      var n := |us| - 1;
      EntitiesNext(EntitiesAll(entities, us[..n], verdicts[..n], now), us[n], verdicts[n], now)
  }

  lemma NextKeepsAnchored(p: Policy, b: Belief, entities: map<Id, Entity>, u: Update, id: Id, now: string)
    requires FactPerBelief(b) && Anchored(entities, b)
    ensures var (b', accepted) := Believe(p, b, u, id); Anchored(EntitiesNext(entities, u, accepted, now), b')
  {
    var (b', accepted) := Believe(p, b, u, id);
    var entities' := EntitiesNext(entities, u, accepted, now);
    forall k | k in b'.current ensures Mirrors(entities', k, b'.current[k].value) {
      if u.op.InvalidateFact? { ForgetExactly(b, k, u.factId); }
      assert k in b.current ==> Mirrors(entities, k, b.current[k].value);
    }
    if u.op.InvalidateFact? { ForgetExactly(b, AttributeKey("", ""), u.factId); }
  }

  /** The beliefs a batch passes through: the one each of its updates meets. */
  ghost function Beliefs(p: Policy, b: Belief, us: seq<Update>, ids: seq<Id>): (bs: seq<Belief>)
    requires |us| == |ids|
    ensures |bs| == |us|
  {
    seq(|us|, i requires 0 <= i < |us| => BelieveAll(p, b, us[..i], ids[..i]).0)
  }

  lemma BeliefsOneMore(p: Policy, b: Belief, us: seq<Update>, ids: seq<Id>, n: nat)
    requires |us| == |ids| == n + 1
    ensures Beliefs(p, b, us, ids)[..n] == Beliefs(p, b, us[..n], ids[..n])
    ensures Beliefs(p, b, us, ids)[n] == BelieveAll(p, b, us[..n], ids[..n]).0
  {
    hide BelieveAll;
    forall i | 0 <= i < n ensures Beliefs(p, b, us, ids)[i] == Beliefs(p, b, us[..n], ids[..n])[i] {
      assert us[..n][..i] == us[..i] && ids[..n][..i] == ids[..i];
    }
  }

  lemma VerdictsOneMore(p: Policy, b: Belief, us: seq<Update>, ids: seq<Id>, n: nat)
    requires |us| == |ids| == n + 1
    ensures var (b0, vs) := BelieveAll(p, b, us[..n], ids[..n]);
            BelieveAll(p, b, us, ids).1 == vs + [Believe(p, b0, us[n], ids[n]).1]
  {
    hide Believe;
  }

  // Update `i` invalidates the fact behind the attribute's value, and no later one sets a value.
  ghost predicate KilledForGood(bs: seq<Belief>, us: seq<Update>, verdicts: seq<bool>, e: Id, a: string, i: nat)
    requires |bs| == |us| == |verdicts| && i < |us|
  {
    && Kills(bs[i], us[i], verdicts[i], e, a)
    && forall j :: i < j < |us| ==> !Sets(us[j], verdicts[j], e, a)
  }

  // The last accepted update that touched the attribute invalidated its fact, or it was stale `before` and none did.
  ghost predicate LastTouchKills(bs: seq<Belief>, us: seq<Update>, verdicts: seq<bool>, e: Id, a: string, before: bool)
    requires |bs| == |us| == |verdicts|
  {
    || (before && forall j :: 0 <= j < |us| ==> !Sets(us[j], verdicts[j], e, a))
    || exists i :: 0 <= i < |us| && KilledForGood(bs, us, verdicts, e, a, i)
  }

  lemma LastTouchOneMore(bs: seq<Belief>, us: seq<Update>, vs: seq<bool>, e: Id, a: string, before: bool)
    requires us != [] && |bs| == |us| == |vs|
    ensures var n := |us| - 1;
            LastTouchKills(bs, us, vs, e, a, before) <==>
            || Kills(bs[n], us[n], vs[n], e, a)
            || (LastTouchKills(bs[..n], us[..n], vs[..n], e, a, before) && !Sets(us[n], vs[n], e, a))
  {
    hide Kills, Sets;
    var n := |us| - 1;
    forall i | 0 <= i < n
      ensures KilledForGood(bs, us, vs, e, a, i) <==>
              KilledForGood(bs[..n], us[..n], vs[..n], e, a, i) && !Sets(us[n], vs[n], e, a)
    {
      if KilledForGood(bs, us, vs, e, a, i) {
        assert forall j :: i < j < n ==> !Sets(us[..n][j], vs[..n][j], e, a);
      } else if KilledForGood(bs[..n], us[..n], vs[..n], e, a, i) && !Sets(us[n], vs[n], e, a) {
        forall j | i < j < |us| ensures !Sets(us[j], vs[j], e, a) {
          if j < n { assert !Sets(us[..n][j], vs[..n][j], e, a); }
        }
      }
    }
    assert KilledForGood(bs, us, vs, e, a, n) <==> Kills(bs[n], us[n], vs[n], e, a);
    if forall j :: 0 <= j < n ==> !Sets(us[..n][j], vs[..n][j], e, a) {
      forall j | 0 <= j < n ensures !Sets(us[j], vs[j], e, a) { assert !Sets(us[..n][j], vs[..n][j], e, a); }
    }
  }

  /**
   * A whole batch and one attribute: what the entity shows is stale at the end if and only if
   * the last accepted update to touch the attribute invalidated its fact, or none touched it and
   * it was stale before.
   */
  lemma {:induction false} StaleAfterBatch(p: Policy, b: Belief, entities: map<Id, Entity>, us: seq<Update>, ids: seq<Id>,
                                           now: string, e: Id, a: string)
    requires FactPerBelief(b) && Anchored(entities, b) && FreshIds(b, ids) && |us| == |ids|
    ensures var (b', verdicts) := BelieveAll(p, b, us, ids);
            && |verdicts| == |us| && Anchored(EntitiesAll(entities, us, verdicts, now), b')
            && (Stale(EntitiesAll(entities, us, verdicts, now), b', e, a) <==>
                LastTouchKills(Beliefs(p, b, us, ids), us, verdicts, e, a, Stale(entities, b, e, a)))
  {
    hide Believe, Anchored, FactPerBelief, Stale, Kills, Sets, Rested;
    if us != [] {
      var n := |us| - 1;
      var (b0, vs0) := BelieveAll(p, b, us[..n], ids[..n]);
      var (bs, vs) := (Beliefs(p, b, us, ids), BelieveAll(p, b, us, ids).1);
      StaleAfterBatch(p, b, entities, us[..n], ids[..n], now, e, a);
      BatchKeepsFacts(p, b, us[..n], ids[..n]);
      BeliefsOneMore(p, b, us, ids, n);
      VerdictsOneMore(p, b, us, ids, n);
      assert vs[..n] == vs0;
      var entities0 := EntitiesAll(entities, us[..n], vs0, now);
      StaleAfter(p, b0, entities0, us[n], ids[n], now, e, a);
      NextKeepsAnchored(p, b0, entities0, us[n], ids[n], now);
      hide LastTouchKills, Beliefs;
      KillsIsNotSets(b0, us[n], vs[n], e, a);
      LastTouchOneMore(bs, us, vs, e, a, Stale(entities, b, e, a));
    }
  }

  lemma KillsIsNotSets(b: Belief, u: Update, accepted: bool, e: Id, a: string)
    ensures !(Kills(b, u, accepted, e, a) && Sets(u, accepted, e, a))
  {
  }

  /**
   * And all attributes: starting from an exact mirror, the mirror is exact after a batch if and
   * only if no attribute was last touched by invalidating its fact.
   */
  lemma MirrorAfterBatch(p: Policy, b: Belief, entities: map<Id, Entity>, us: seq<Update>, ids: seq<Id>, now: string)
    requires FactPerBelief(b) && Anchored(entities, b) && MirrorExact(entities, b) && FreshIds(b, ids) && |us| == |ids|
    ensures var (b', verdicts) := BelieveAll(p, b, us, ids);
            && |verdicts| == |us|
            && (MirrorExact(EntitiesAll(entities, us, verdicts, now), b') <==>
                forall e, a, i :: 0 <= i < |us| ==> !KilledForGood(Beliefs(p, b, us, ids), us, verdicts, e, a, i))
  {
    hide BelieveAll, Beliefs, Anchored, FactPerBelief, KilledForGood, FreshIds, EntitiesAll;
    StaleAfterBatch(p, b, entities, us, ids, now, "", "");
    var (b', vs) := BelieveAll(p, b, us, ids);
    var entities' := EntitiesAll(entities, us, vs, now);
    ExactIsNeverStale(entities, b);
    ghost var bs := Beliefs(p, b, us, ids);
    hide MirrorExact, Stale;
    forall e, a, i | 0 <= i < |us| && KilledForGood(bs, us, vs, e, a, i)
      ensures Stale(entities', b', e, a)
    {
      StaleAfterBatch(p, b, entities, us, ids, now, e, a);
    }
    if e, a :| Stale(entities', b', e, a) {
      StaleAfterBatch(p, b, entities, us, ids, now, e, a);
      assert !Stale(entities, b, e, a);
      var i :| 0 <= i < |us| && KilledForGood(bs, us, vs, e, a, i);
    }
    ExactIsNeverStale(entities', b');
  }

  lemma ExactIsNeverStale(entities: map<Id, Entity>, b: Belief)
    ensures MirrorExact(entities, b) <==> forall e, a :: !Stale(entities, b, e, a)
  {
    if forall e, a :: !Stale(entities, b, e, a) {
      forall e, a | Shown(entities, e, a) ensures AttributeKey(e, a) in b.current {
        assert !Stale(entities, b, e, a);
      }
    }
  }

  /** The mirror on an entity can outlive the belief: invalidating a fact leaves it in place. */
  method InvalidationLeavesMirror(value: Value) returns (store: GraphStore)
    requires value.Other?
    ensures fresh(store) && store.Valid() && store.belief.current == map[]
    ensures "e" in store.entities && store.entities["e"].attributes == map["a" := value]
  {
    store := new GraphStore();
    hide Backed, Anchored, OnlyGrows, GraphStore.Valid, Forget;
    var updater := new GraphUpdater(store, 0.5, false);
    var setting := Update(SetAttribute, "e", "unknown", "a", value, "", "", "", "", 1.0, "", "vlm", "");
    assert ValidEntityId("e");
    var ok := updater.ApplySingle(setting, "f", "");
    ghost var b := store.belief;
    assert b.current == map[AttributeKey("e", "a") := Believed("f", value)];
    ForgetOnly(b, AttributeKey("e", "a"), Believed("f", value));
    ok := updater.ApplySingle(setting.(op := InvalidateFact, factId := "f"), "g", "");
  }

  lemma ForgetOnly(b: Belief, k: Key, v: Believed)
    requires b.current == map[k := v]
    ensures Forget(b, v.fact).1 && Forget(b, v.fact).0.current == map[]
  {
    assert Rests(b, k, v.fact);
    assert forall j | Rests(b, j, v.fact) :: j == k;
  }
}
