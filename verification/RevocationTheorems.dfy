/** When a quote call revokes or replays a quote that another call published. */
module RevocationTheorems {
  import opened Results
  import opened RfqTypes
  import opened QuoteTransactions
  import opened QuoteLifecycle
  import opened QuoteStoreInvariants
  import opened QuoteStoreTheorems
  import opened CoordinatorProtocol
  import opened CoordinatorTheorems
  import opened SampleTerms

  /** A revocation that a strict caller decided on from a stale copy takes effect even when
      another call published in the meantime: the record ends REVOKED, its quote kept. */
  lemma StaleRevocationOvertakesPublication(sys: System, id: nat, ch: Choice, depth: int)
    requires SysInv(sys) && id in sys.calls && sys.calls[id].phase.Revoking?
    requires Current(sys.store, sys.calls[id]).value.state.Published?
    ensures var c := sys.calls[id];
            var t := Next(sys, Advance(id, ch), depth).store;
            && Current(t, c).Some? && Current(t, c).value.state.Revoked?
            && Current(t, c).value.signedQuote == Current(sys.store, c).value.signedQuote
            && Current(t, c).value.signedQuote.Some?
  {
    hide Inv, Apply, Commit, StoreEvolves, FindByKey;
    var c := sys.calls[id];
    var s := sys.store;
    assert CallOk(s, c);
    CurrentIsFound(s, c);
    var i := FindByKey(s.records, c.scope, KeyHash(c)).value;
    PublishedIsSigned(s, i);
    RevokePublished(s, NextOp(c, ch).value, depth, i);
    CommitKeeps(s, NextOp(c, ch).value, depth);
    SameKeySameIndex(s, Commit(s, NextOp(c, ch).value, depth), c);
  }

  /** A call sets out to revoke exactly when it answers from a copy of its own request that is
      still RESERVED and unsigned, and its strict policy is not content with the copy's evidence. */
  lemma RevokesOnlyUnadmittedCopies(s: Store, c: Call, ch: Choice, depth: int)
    ensures NextPhase(s, c, ch, depth).Revoking? <==>
              && c.phase.Responding? && ch.clock.Some?
              && c.phase.found.requestHash == RequestHash(c)
              && c.phase.found.state.Reserved? && c.phase.found.signedQuote.None?
              && !ContentWith(c, c.phase.found.evidence, ch.clock.value)
    ensures NextPhase(s, c, ch, depth).Revoking? ==>
              NextPhase(s, c, ch, depth) == Revoking(c.phase.found.nonce, ch.clock.value)
  {
    hide Apply, FindByKey, IsFresh;
  }

  /** A step of a quote call revokes a published quote exactly when the call set out to revoke the
      record behind that quote's key; it is then a strict one whose policy was not content with the
      record's evidence at the clock reading it decided on. */
  lemma RevokesPublishedExactlyWhen(sys: System, id: nat, ch: Choice, depth: int, i: nat)
    requires SysInv(sys) && id in sys.calls
    requires i < |sys.store.records| && sys.store.records[i].state.Published?
    ensures i < |Next(sys, Advance(id, ch), depth).store.records|
    ensures var c := sys.calls[id];
            var r := sys.store.records[i];
            Next(sys, Advance(id, ch), depth).store.records[i].state.Revoked? <==>
              c.phase.Revoking? && HasKey(r, c.scope, KeyHash(c))
    ensures var c := sys.calls[id];
            Next(sys, Advance(id, ch), depth).store.records[i].state.Revoked? ==>
              c.strict.Some? && !ContentWith(c, sys.store.records[i].evidence, c.phase.now)
  {
    hide Inv, AllFaithful, StoreEvolves, Apply, Commit, Next, FindByKey, Evolves;
    var c, s := sys.calls[id], sys.store;
    assert CallOk(s, c);
    if HasKey(s.records[i], c.scope, KeyHash(c)) {
      CurrentIs(s, c, i);
    }
    NextStore(sys, id, ch, depth);
    var op := NextOp(c, ch);
    if op.Some? {
      if c.phase.Revoking? && HasKey(s.records[i], c.scope, KeyHash(c)) {
        RevokePublished(s, op.value, depth, i);
      } else {
        RevokedOnlyByRevoke(s, op.value, depth, i);
        if c.phase.Revoking? && HasNonce(s.records[i], c.scope, c.phase.nonce) {
          InvNumbersNonces(s);
          NonceFindsCurrent(s, c, i);
        }
      }
    }
  }

  lemma NextStore(sys: System, id: nat, ch: Choice, depth: int)
    requires id in sys.calls
    ensures Next(sys, Advance(id, ch), depth).store
         == if NextOp(sys.calls[id], ch).Some? then Commit(sys.store, NextOp(sys.calls[id], ch).value, depth)
            else sys.store
  {
    hide Commit, NextOp, NextPhase;
  }

  lemma CurrentIs(s: Store, c: Call, i: nat)
    requires Inv(s) && i < |s.records| && HasKey(s.records[i], c.scope, KeyHash(c))
    ensures Current(s, c) == Some(s.records[i])
  {
    hide RecordsOk, Conserved, NoncesDense;
    var j := FindByKey(s.records, c.scope, KeyHash(c)).value;
    assert i == j;
  }

  lemma InvNumbersNonces(s: Store)
    requires Inv(s)
    ensures NoncesDense(s)
  {
  }

  lemma RevokedOnlyByRevoke(s: Store, op: Op, depth: int, i: nat)
    requires Inv(s) && i < |s.records| && s.records[i].state.Published?
    ensures i < |Commit(s, op, depth).records|
    ensures Commit(s, op, depth).records[i].state.Revoked? ==> op.Revoke? && HasNonce(s.records[i], op.scope, op.nonce)
  {
    hide Inv, StoreEvolves, Apply;
    TransactionSound(s, op, depth);
    if Apply(s, op, depth).Ok? {
      assert Explained(op, depth, s.records[i], Commit(s, op, depth).records[i]);
    }
  }

  // ---- replay ----

  /** A caller whose key has a signed quote on record gets that quote, whatever has become of the
      record since, exactly when it repeats the request and, if strict, the record has evidence. */
  lemma ReplaysExactlyWhen(sys: System, id: nat, first: Choice, second: Choice, depth: int)
    requires id in sys.calls && sys.calls[id].phase.Looking?
    requires var current := Current(sys.store, sys.calls[id]); current.Some? && current.value.signedQuote.Some?
    ensures var c := sys.calls[id];
            var r := Current(sys.store, c).value;
            var after := Next(Next(sys, Advance(id, first), depth), Advance(id, second), depth);
            && id in after.calls && after.store == sys.store
            && (after.calls[id].phase.Succeeded? <==>
                  r.requestHash == RequestHash(c) && (c.strict.Some? ==> r.evidence.Some?))
            && (after.calls[id].phase.Succeeded? ==> after.calls[id].phase == Succeeded(r.signedQuote.value, None))
  {
    hide FindByKey, Commit, Apply;
    CurrentIsFound(sys.store, sys.calls[id]);
  }

  // ---- a run in which both happen ----

  lemma {:induction false} PlayOneMore(sys: System, steps: seq<Step>, step: Step, depth: int)
    ensures Play(sys, steps + [step], depth) == Next(Play(sys, steps, depth), step, depth)
    decreases |steps|
  {
    hide Next;
    if steps == [] {
      assert Play(sys, [step], depth) == Play(Next(sys, step, depth), [], depth);
    } else {
      assert (steps + [step])[1..] == steps[1..] + [step];
      PlayOneMore(Next(sys, steps[0], depth), steps[1..], step, depth);
    }
  }

  function Relaxed(): Call { Call(TheScope(), "key", TheRequest(), None, None, Failed) }

  function Strict(): Call { Relaxed().(strict := Some(StrictPolicy(None, 5))) }

  /** What the world answers at every step. */
  function TheAnswers(): Choice { Choice(Some(1), Some(Priced(5, Evidence(0, 9, 0, 9))), Some(TheSignature())) }

  function EmptyStore(): Store { Store([], map[], map[TheKey() := Bucket(10, 0)]) }

  function ReservedRecord(): Record {
    NewRecord(ReserveInput(TheScope(), OfSecret("key"), OfRequest(TheRequest()), TheRequest(), TheKey(),
                           5, 60, 0, None), 1)
  }

  function ReservedStore(): Store {
    Store([ReservedRecord()], map[TheScope() := 1], map[TheKey() := Bucket(10, 5)])
  }

  function TheQuote(): SignedQuote { SignedQuote(QuoteOf(ReservedRecord()), TheSignature(), DomainOf(TheScope())) }

  function PublishTheQuote(): Op {
    MarkSigned(TheScope(), OfSecret("key"), OfRequest(TheRequest()), TheQuote(),
               OfQuote(TheQuote().quote, TheQuote().domain), None, 1)
  }

  function PublishedStore(): Store {
    Replace(ReservedStore(), 0, Publication(ReservedRecord(), PublishTheQuote()))
  }

  /** The relaxed call is number 0, the strict one number 1. */
  function At(s: Store, relaxed: Phase, strict: Phase): System {
    System(s, map[0 := Relaxed().(phase := relaxed), 1 := Strict().(phase := strict)])
  }

  lemma FirstIsFound(r: Record)
    ensures FindByKey([r], r.scope, r.keyHash) == Some(0) && FindByNonce([r], r.scope, r.nonce) == Some(0)
  {
  }

  lemma RelaxedReserves(depth: int)
    ensures Apply(EmptyStore(), ReserveOp(Relaxed().(phase := Reserving(0, 5, None))), depth)
         == Ok(Outcome(ReservedStore(), ReservedRecord(), false))
  {
    var input := ReserveOp(Relaxed().(phase := Reserving(0, 5, None))).input;
    assert Sweep(EmptyStore(), 0, 0) == Ok(EmptyStore());
    assert NewRecord(input, 1) == ReservedRecord();
    assert Book(EmptyStore(), input).lastNonce == ReservedStore().lastNonce;
    assert Book(EmptyStore(), input).inventory == ReservedStore().inventory;
    assert EmptyStore().records + [ReservedRecord()] == [ReservedRecord()];
  }

  lemma RelaxedPublishes(depth: int)
    ensures Apply(ReservedStore(), PublishTheQuote(), depth)
         == Ok(Outcome(PublishedStore(), PublishedStore().records[0], true))
  {
    FirstIsFound(ReservedRecord());
  }

  /** Steps that lead from a fresh store to the published quote, with the strict call about to
      revoke it on the strength of the copy it took before. */
  function UntilPublished(): seq<Step> {
    [Begin(0, Relaxed(), 0), Begin(1, Strict(), 0)] + RelaxedSteps(3) + StrictSteps(2) + RelaxedSteps(3)
  }

  function RelaxedSteps(n: nat): seq<Step> {
    seq(n, _ => Advance(0, TheAnswers()))
  }

  function StrictSteps(n: nat): seq<Step> {
    seq(n, _ => Advance(1, TheAnswers()))
  }

  lemma {:induction false} PlayConcat(sys: System, a: seq<Step>, b: seq<Step>, depth: int)
    ensures Play(sys, a + b, depth) == Play(Play(sys, a, depth), b, depth)
    decreases |b|
  {
    hide Next;
    if b == [] {
      assert a + b == a;
    } else {
      PlayOneMore(sys, a, b[0], depth);
      assert a + b == (a + [b[0]]) + b[1..];
      PlayConcat(sys, a + [b[0]], b[1..], depth);
    }
  }

  lemma Two(sys: System, first: Step, second: Step, depth: int)
    ensures Play(sys, [first, second], depth) == Next(Next(sys, first, depth), second, depth)
  {
    hide Next;
    var s1 := Next(sys, first, depth);
    assert [first, second][1..] == [second] && [second][1..] == [];
    assert Play(s1, [second], depth) == Play(Next(s1, second, depth), [], depth);
  }

  function StoreAfter(s: Store, c: Call, depth: int): Store {
    if NextOp(c, TheAnswers()).Some? then Commit(s, NextOp(c, TheAnswers()).value, depth) else s
  }

  lemma RelaxedAdvances(s: Store, relaxed: Phase, strict: Phase, depth: int)
    ensures Next(At(s, relaxed, strict), Advance(0, TheAnswers()), depth)
         == At(StoreAfter(s, Relaxed().(phase := relaxed), depth),
               NextPhase(s, Relaxed().(phase := relaxed), TheAnswers(), depth), strict)
  {
    hide Commit, NextOp, NextPhase;
  }

  lemma StrictAdvances(s: Store, relaxed: Phase, strict: Phase, depth: int)
    ensures Next(At(s, relaxed, strict), Advance(1, TheAnswers()), depth)
         == At(StoreAfter(s, Strict().(phase := strict), depth),
               relaxed, NextPhase(s, Strict().(phase := strict), TheAnswers(), depth))
  {
    hide Commit, NextOp, NextPhase;
  }

  lemma RelaxedReachesSignable(depth: int)
    ensures Play(At(EmptyStore(), Looking(0), Looking(0)), RelaxedSteps(3), depth)
         == At(ReservedStore(), Signable(ReservedRecord(), 0), Looking(0))
  {
    hide Apply, Next, Play;
    var step := Advance(0, TheAnswers());
    assert RelaxedSteps(3) == [step, step, step];
    ThreeSteps(At(EmptyStore(), Looking(0), Looking(0)), step, step, step, depth);
    RelaxedAdvances(EmptyStore(), Looking(0), Looking(0), depth);
    RelaxedAdvances(EmptyStore(), Pricing(0), Looking(0), depth);
    RelaxedAdvances(EmptyStore(), Reserving(0, 5, None), Looking(0), depth);
    RelaxedReserves(depth);
  }

  lemma StrictReachesRevoking(depth: int)
    ensures Play(At(ReservedStore(), Signable(ReservedRecord(), 0), Looking(0)), StrictSteps(2), depth)
         == At(ReservedStore(), Signable(ReservedRecord(), 0), Revoking(1, 1))
  {
    hide Apply, Next, Play;
    var step := Advance(1, TheAnswers());
    var waiting := Signable(ReservedRecord(), 0);
    assert StrictSteps(2) == [step, step];
    Two(At(ReservedStore(), waiting, Looking(0)), step, step, depth);
    FirstIsFound(ReservedRecord());
    StrictAdvances(ReservedStore(), waiting, Looking(0), depth);
    StrictAdvances(ReservedStore(), waiting, Responding(ReservedRecord()), depth);
  }

  lemma RelaxedReachesSuccess(depth: int)
    ensures Play(At(ReservedStore(), Signable(ReservedRecord(), 0), Revoking(1, 1)), RelaxedSteps(3), depth)
         == At(PublishedStore(), Succeeded(TheQuote(), Some(0)), Revoking(1, 1))
  {
    hide Apply, Next, Play;
    var step := Advance(0, TheAnswers());
    assert RelaxedSteps(3) == [step, step, step];
    ThreeSteps(At(ReservedStore(), Signable(ReservedRecord(), 0), Revoking(1, 1)), step, step, step, depth);
    RelaxedAdvances(ReservedStore(), Signable(ReservedRecord(), 0), Revoking(1, 1), depth);
    RelaxedAdvances(ReservedStore(), AwaitingSigner(QuoteOf(ReservedRecord()), 0), Revoking(1, 1), depth);
    RelaxedAdvances(ReservedStore(), Publishing(TheQuote(), 0), Revoking(1, 1), depth);
    RelaxedPublishes(depth);
  }

  lemma PublishedWhileRevoking(depth: int)
    ensures Play(System(EmptyStore(), map[]), UntilPublished(), depth)
         == At(PublishedStore(), Succeeded(TheQuote(), Some(0)), Revoking(1, 1))
  {
    hide Next, Play, RelaxedSteps, StrictSteps;
    var sys0 := System(EmptyStore(), map[]);
    var begins := [Begin(0, Relaxed(), 0), Begin(1, Strict(), 0)];
    Two(sys0, begins[0], begins[1], depth);
    BothBegin(depth);
    PlayConcat(sys0, begins, RelaxedSteps(3), depth);
    RelaxedReachesSignable(depth);
    PlayConcat(sys0, begins + RelaxedSteps(3), StrictSteps(2), depth);
    StrictReachesRevoking(depth);
    PlayConcat(sys0, begins + RelaxedSteps(3) + StrictSteps(2), RelaxedSteps(3), depth);
    RelaxedReachesSuccess(depth);
  }

  lemma BothBegin(depth: int)
    ensures Next(Next(System(EmptyStore(), map[]), Begin(0, Relaxed(), 0), depth), Begin(1, Strict(), 0), depth)
         == At(EmptyStore(), Looking(0), Looking(0))
  {
  }

  /** The race is real: from a fresh store a relaxed call publishes and succeeds, and the next step
      of the strict call revokes what it published. */
  lemma RevocationRun(depth: int)
    ensures var sys0 := System(EmptyStore(), map[]);
            var published := Play(sys0, UntilPublished(), depth);
            var revoked := Play(sys0, UntilPublished() + [Advance(1, TheAnswers())], depth);
            && Initial(sys0)
            && published == At(PublishedStore(), Succeeded(TheQuote(), Some(0)), Revoking(1, 1))
            && published.store.records[0].state.Published?
            && |revoked.store.records| == 1 && revoked.store.records[0].state.Revoked?
            && revoked.calls.Keys == {0, 1}
  {
    hide Next, Play, Apply, Commit, UntilPublished, FindByKey, Inv, AllFaithful, StoreEvolves, NextOp, NextPhase;
    var sys0 := System(EmptyStore(), map[]);
    PublishedWhileRevoking(depth);
    var published := Play(sys0, UntilPublished(), depth);
    PlayOneMore(sys0, UntilPublished(), Advance(1, TheAnswers()), depth);
    Reachable(sys0, UntilPublished(), depth);
    RevokesPublishedExactlyWhen(published, 1, TheAnswers(), depth, 0);
    StrictAdvances(PublishedStore(), Succeeded(TheQuote(), Some(0)), Revoking(1, 1), depth);
    OneRecordStays(depth);
  }

  /** After it a third call still succeeds with the revoked quote. */
  lemma ReplayRun(depth: int)
    ensures var sys0 := System(EmptyStore(), map[]);
            var again := [Begin(2, Relaxed(), 0), Advance(2, TheAnswers()), Advance(2, TheAnswers())];
            var replayed := Play(sys0, UntilPublished() + [Advance(1, TheAnswers())] + again, depth);
            && |replayed.store.records| == 1 && replayed.store.records[0].state.Revoked?
            && 2 in replayed.calls && replayed.calls[2].phase == Succeeded(TheQuote(), None)
  {
    hide Next, Play, Apply, Commit, UntilPublished, FindByKey, Inv, AllFaithful, StoreEvolves;
    var sys0 := System(EmptyStore(), map[]);
    var steps := UntilPublished() + [Advance(1, TheAnswers())];
    var begin, advance := Begin(2, Relaxed(), 0), Advance(2, TheAnswers());
    RevocationRun(depth);
    Reachable(sys0, UntilPublished(), depth);
    NextKeeps(Play(sys0, UntilPublished(), depth), Advance(1, TheAnswers()), depth);
    PlayOneMore(sys0, UntilPublished(), Advance(1, TheAnswers()), depth);
    var revoked := Play(sys0, steps, depth);
    ThirdReplays(PublishedStore(), revoked, depth);
    ThreeSteps(revoked, begin, advance, advance, depth);
    PlayConcat(sys0, steps, [begin, advance, advance], depth);
  }

  lemma ThirdReplays(before: Store, sys: System, depth: int)
    requires before == PublishedStore() && StoreEvolves(before, sys.store) && Inv(sys.store)
    requires 2 !in sys.calls && |sys.store.records| == 1
    ensures var advance := Advance(2, TheAnswers());
            var after := Next(Next(Next(sys, Begin(2, Relaxed(), 0), depth), advance, depth), advance, depth);
            after.store == sys.store && 2 in after.calls && after.calls[2].phase == Succeeded(TheQuote(), None)
  {
    hide Next, Inv, FindByKey, Apply, Commit;
    ThirdBegins(sys, depth);
    var begun := Next(sys, Begin(2, Relaxed(), 0), depth);
    assert Evolves(before.records[0], sys.store.records[0]);
    CurrentIs(begun.store, begun.calls[2], 0);
    ReplaysExactlyWhen(begun, 2, TheAnswers(), TheAnswers(), depth);
  }

  lemma ThirdBegins(sys: System, depth: int)
    requires 2 !in sys.calls
    ensures Next(sys, Begin(2, Relaxed(), 0), depth)
         == sys.(calls := sys.calls[2 := Relaxed().(phase := Looking(0))])
  {
  }

  lemma ThreeSteps(sys: System, a: Step, b: Step, c: Step, depth: int)
    ensures Play(sys, [a, b, c], depth) == Next(Next(Next(sys, a, depth), b, depth), c, depth)
  {
    hide Next;
    Two(Next(sys, a, depth), b, c, depth);
    assert [a, b, c][1..] == [b, c];
  }

  lemma OneRecordStays(depth: int)
    ensures |StoreAfter(PublishedStore(), Strict().(phase := Revoking(1, 1)), depth).records| == 1
  {
  }
}
