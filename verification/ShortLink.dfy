/** Short links, one per message text: minting a token and agreeing on one per group
    (backend/app/utils/short_link.py). Redis is reachable and nothing expires. */
module ShortLink {
  import opened Grouping
  import opened Wrappers

  type Token = string

  const MAX_RETRIES := 5

  // ---- one caller at a time ----

  /** The first draw that neither Redis nor the table knows. */
  function FirstFree(draws: seq<Token>, redis: set<Token>, table: set<Token>): (r: Option<Token>)
    ensures r.Some? ==> r.value in draws && r.value !in redis && r.value !in table
    ensures r.None? ==> forall i :: 0 <= i < |draws| ==> draws[i] in redis || draws[i] in table
  {
    if draws == [] then None
    else if draws[0] !in redis && draws[0] !in table then Some(draws[0])
    else FirstFree(draws[1..], redis, table)
  }

  class Links {
    var redis: set<Token>
    var table: set<Token>
    var slots: map<string, Token>

    constructor ()
      ensures redis == {} && table == {} && slots == map[]
    {
      redis, table, slots := {}, {}, map[];
    }

    /** _mint_token: a draw is reserved in Redis, then inserted; a clash in either place costs one attempt, and a
        clash in the table gives the reservation back. */
    method MintToken(draws: seq<Token>) returns (r: Option<Token>)
      modifies this
      ensures r == FirstFree(draws, old(redis), old(table)) && slots == old(slots)
      ensures redis == old(redis) + (if r.Some? then {r.value} else {})
      ensures table == old(table) + (if r.Some? then {r.value} else {})
    {
      for attempt := 0 to |draws|
        invariant redis == old(redis) && table == old(table) && slots == old(slots)
        invariant FirstFree(draws[attempt..], redis, table) == FirstFree(draws, redis, table)
      {
        var token := draws[attempt];
        assert draws[attempt..][1..] == draws[attempt + 1..];
        if token in redis {
          continue;
        }
        redis := redis + {token};
        if token in table {
          redis := redis - {token};
          continue;
        }
        table := table + {token};
        return Some(token);
      }
      r := None;
    }

    /** The shared-group path of generate_short_link. */
    method GenerateShared(key: string, draws: seq<Token>) returns (r: Option<Token>)
      modifies this
      ensures r.Some? ==> key in slots && r.value == slots[key]
      ensures key in old(slots) ==> r == Some(old(slots)[key]) && slots == old(slots) && table == old(table)
      ensures key !in old(slots) ==>
                && r == FirstFree(draws, old(redis), old(table))
                && slots == if r.Some? then old(slots)[key := r.value] else old(slots)
    {
      if key in slots {
        return Some(slots[key]);
      }
      r := MintToken(draws);
      if r.Some? {
        slots := slots[key := r.value];
      }
    }
  }

  // ---- all interleavings ----

  /** Where a caller is: Reserved holds a token in Redis only, Minted in the table as well, Beaten has lost the
      slot of its group. */
  datatype Stage =
    | Asking
    | Minting(tries: nat)
    | Reserved(token: Token, tries: nat)
    | Minted(token: Token)
    | Beaten(token: Token)
    | Done(token: Token)
    | Failed

  datatype Caller = Caller(key: string, stage: Stage)

  /** minted lists the tokens the callers have inserted. */
  datatype State = State(callers: seq<Caller>, redis: set<Token>, table: set<Token>, slots: map<string, Token>,
                         minted: seq<Token>)

  /** A caller takes its next step; draw is what the generator gives if it is asked. */
  datatype Event = Join(key: string) | Step(i: nat, draw: Token)

  predicate Enabled(s: State, e: Event) {
    match e
    case Join(_) => true
    case Step(i, _) => i < |s.callers|
  }

  function At(s: State, i: nat, stage: Stage): State
    requires i < |s.callers|
  {
    s.(callers := s.callers[i := s.callers[i].(stage := stage)])
  }

  function Apply(s: State, e: Event): State
    requires Enabled(s, e)
  {
    match e
    case Join(key) => s.(callers := s.callers + [Caller(key, Asking)])
    case Step(i, draw) =>
      var key := s.callers[i].key;
      match s.callers[i].stage
      case Asking => At(s, i, if key in s.slots then Done(s.slots[key]) else Minting(MAX_RETRIES))
      case Minting(tries) =>
        if tries == 0 then At(s, i, Failed)
        else if draw in s.redis then At(s, i, Minting(tries - 1))
        else At(s, i, Reserved(draw, tries - 1)).(redis := s.redis + {draw})
      case Reserved(token, tries) =>
        if token in s.table then At(s, i, Minting(tries)).(redis := s.redis - {token})
        else At(s, i, Minted(token)).(table := s.table + {token}, minted := s.minted + [token])
      case Minted(token) =>
        if key in s.slots then At(s, i, Beaten(token)) else At(s, i, Done(token)).(slots := s.slots[key := token])
      case Beaten(token) => At(s, i, Done(if key in s.slots then s.slots[key] else token))
      case _ => s
  }

  predicate InSlot(slots: map<string, Token>, t: Token) {
    exists k :: k in slots && slots[k] == t
  }

  /** What a caller's stage says about the shared state. */
  predicate StageOk(c: Caller, s: State) {
    match c.stage
    case Reserved(token, _) => token in s.redis && token !in s.minted
    case Minted(token) => token in s.minted && !InSlot(s.slots, token)
    case Beaten(_) => c.key in s.slots
    case Done(token) => c.key in s.slots && s.slots[c.key] == token
    case _ => true
  }

  /** The token a caller alone is working on. */
  function Holds(c: Caller): Option<Token> {
    if c.stage.Reserved? || c.stage.Minted? then Some(c.stage.token) else None
  }

  predicate HoldApart(callers: seq<Caller>) {
    forall i, j :: 0 <= i < j < |callers| && Holds(callers[i]).Some? ==> Holds(callers[i]) != Holds(callers[j])
  }

  predicate OneSlotEach(slots: map<string, Token>) {
    forall k, k' :: k in slots && k' in slots && slots[k] == slots[k'] ==> k == k'
  }

  ghost predicate Ok(s: State) {
    && (forall i :: 0 <= i < |s.callers| ==> StageOk(s.callers[i], s))
    && HoldApart(s.callers)
    && Distinct(s.minted)
    && OneSlotEach(s.slots)
    && (forall t :: t in s.minted ==> t in s.table && t in s.redis)
    && forall k :: k in s.slots ==> s.slots[k] in s.minted
  }

  lemma ReserveKeepsOk(s: State, i: nat, draw: Token)
    requires Ok(s) && i < |s.callers| && s.callers[i].stage.Minting?
    ensures Ok(Apply(s, Step(i, draw)))
  {
    var r := Apply(s, Step(i, draw));
    forall j | 0 <= j < |s.callers| && j != i
      ensures StageOk(s.callers[j], s) && Holds(r.callers[j]) == Holds(s.callers[j])
      ensures Holds(s.callers[j]).Some? ==> s.callers[j].stage.token in s.redis
    {
    }
  }

  lemma InsertKeepsOk(s: State, i: nat, draw: Token)
    requires Ok(s) && i < |s.callers| && s.callers[i].stage.Reserved?
    ensures Ok(Apply(s, Step(i, draw)))
  {
    var token := s.callers[i].stage.token;
    assert StageOk(s.callers[i], s) && Holds(s.callers[i]) == Some(token);
    assert !InSlot(s.slots, token);
    forall j | 0 <= j < |s.callers| && j != i
      ensures StageOk(s.callers[j], s) && Holds(s.callers[j]) != Some(token)
    {
    }
  }

  lemma ClaimKeepsOk(s: State, i: nat, draw: Token)
    requires Ok(s) && i < |s.callers| && s.callers[i].stage.Minted?
    ensures Ok(Apply(s, Step(i, draw)))
  {
    var token := s.callers[i].stage.token;
    var r := Apply(s, Step(i, draw));
    assert StageOk(s.callers[i], s) && Holds(s.callers[i]) == Some(token);
    forall j | 0 <= j < |s.callers| && j != i
      ensures StageOk(r.callers[j], r)
    {
      assert StageOk(s.callers[j], s) && Holds(s.callers[j]) != Some(token);
    }
    assert forall k :: k in s.slots && s.slots[k] == token ==> InSlot(s.slots, token);
  }

  lemma StepKeepsOk(s: State, e: Event)
    requires Ok(s) && Enabled(s, e)
    ensures Ok(Apply(s, e))
  {
    if e.Step? {
      assert StageOk(s.callers[e.i], s);
      match s.callers[e.i].stage
      case Minting(_) => ReserveKeepsOk(s, e.i, e.draw);
      case Reserved(_, _) => InsertKeepsOk(s, e.i, e.draw);
      case Minted(_) => ClaimKeepsOk(s, e.i, e.draw);
      case _ =>
    }
  }

  lemma StepKeepsSlots(s: State, e: Event, key: string)
    requires Enabled(s, e) && key in s.slots
    ensures key in Apply(s, e).slots && Apply(s, e).slots[key] == s.slots[key]
  {
  }

  /** A run may start with tokens and reservations of earlier days. */
  ghost predicate IsRun(events: seq<Event>, states: seq<State>) {
    && |states| == |events| + 1
    && states[0].callers == [] && states[0].slots == map[] && states[0].minted == []
    && forall i :: 0 <= i < |events| ==> StepAt(events, states, i)
  }

  ghost predicate StepAt(events: seq<Event>, states: seq<State>, i: nat)
    requires i < |events| && |states| == |events| + 1
  {
    Enabled(states[i], events[i]) && states[i + 1] == Apply(states[i], events[i])
  }

  lemma {:induction false} RunKeepsOk(events: seq<Event>, states: seq<State>, n: nat)
    requires IsRun(events, states) && n < |states|
    ensures Ok(states[n])
  {
    if n > 0 {
      RunKeepsOk(events, states, n - 1);
      assert StepAt(events, states, n - 1);
      StepKeepsOk(states[n - 1], events[n - 1]);
    }
  }

  lemma {:induction false} SlotsStay(events: seq<Event>, states: seq<State>, m: nat, n: nat, key: string)
    requires IsRun(events, states) && m <= n < |states| && key in states[m].slots
    ensures key in states[n].slots && states[n].slots[key] == states[m].slots[key]
  {
    if m < n {
      SlotsStay(events, states, m, n - 1, key);
      assert StepAt(events, states, n - 1);
      StepKeepsSlots(states[n - 1], events[n - 1], key);
    }
  }

  /** All callers of a group that return, return the same token, however they interleave and whenever they do; it
      is stored in the table and in Redis. */
  lemma SameTokenForGroup(events: seq<Event>, states: seq<State>, m: nat, i: nat, n: nat, j: nat)
    requires IsRun(events, states) && m <= n < |states| && i < |states[m].callers| && j < |states[n].callers|
    requires states[m].callers[i].stage.Done? && states[n].callers[j].stage.Done?
    requires states[m].callers[i].key == states[n].callers[j].key
    ensures states[m].callers[i].stage.token == states[n].callers[j].stage.token
    ensures states[m].callers[i].stage.token in states[m].table && states[m].callers[i].stage.token in states[m].redis
  {
    RunKeepsOk(events, states, m);
    RunKeepsOk(events, states, n);
    assert StageOk(states[m].callers[i], states[m]) && StageOk(states[n].callers[j], states[n]);
    SlotsStay(events, states, m, n, states[m].callers[i].key);
  }

  /** Distinct mints give distinct tokens. */
  lemma MintsDistinct(events: seq<Event>, states: seq<State>, n: nat)
    requires IsRun(events, states) && n < |states|
    ensures Distinct(states[n].minted)
  {
    RunKeepsOk(events, states, n);
  }

  /** Different groups never share a token. */
  lemma GroupsApart(events: seq<Event>, states: seq<State>, m: nat, i: nat, n: nat, j: nat)
    requires IsRun(events, states) && m <= n < |states| && i < |states[m].callers| && j < |states[n].callers|
    requires states[m].callers[i].stage.Done? && states[n].callers[j].stage.Done?
    requires states[m].callers[i].key != states[n].callers[j].key
    ensures states[m].callers[i].stage.token != states[n].callers[j].stage.token
  {
    RunKeepsOk(events, states, m);
    RunKeepsOk(events, states, n);
    assert StageOk(states[m].callers[i], states[m]) && StageOk(states[n].callers[j], states[n]);
    SlotsStay(events, states, m, n, states[m].callers[i].key);
    assert OneSlotEach(states[n].slots);
  }
}
