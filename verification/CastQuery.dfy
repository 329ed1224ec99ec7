/** A retrospective query from its text to its answer. */
module CastQuery {
  import opened Packets
  import opened Expressions
  import opened Clauses
  import opened Planner
  import opened Grammar
  import opened Cast
  import PP = PublishProtocol
  import PI = PublishInvariant
  import PL = PublishLimits
  import PT = PublishTheorems
  import TextParser
  import QueryLexer

  /** Where flipping the operator of a predicate under a '!' complements its range, the answer
      on TCP and UDP packets is what the text says, negations included, save for unchecked
      first hits. */
  ghost predicate TextAnswer(s: PP.State, e: ETree, resolve: Resolver, count: IndexFilter -> nat, ids: set<nat>)
    requires Plannable(AstE(e), resolve)
  {
    forall id: nat | id < s.readId && Sound(s, e, resolve, id) ::
      id in ids <==>
      MeanE(e, EnvFor(resolve, PT.RecordAt(s, id))) || Extra(s, AstE(e), resolve, count, id)
  }

  predicate Sound(s: PP.State, e: ETree, resolve: Resolver, id: nat) {
    HasPorts(PT.RecordAt(s, id).pkt) && SoundFlipsE(e, false, EnvFor(resolve, PT.RecordAt(s, id)))
  }

  lemma AnswersText(s: PP.State, e: ETree, resolve: Resolver, count: IndexFilter -> nat, ids: set<nat>)
    requires Plannable(AstE(e), resolve) && CastAnswer(s, AstE(e), resolve, count, ids)
    requires TextParser.SameTruth(AstE(e), e)
    ensures TextAnswer(s, e, resolve, count, ids)
  {
    forall id: nat | id < s.readId && Sound(s, e, resolve, id)
      ensures Eval(AstE(e), EnvFor(resolve, PT.RecordAt(s, id))) <==> MeanE(e, EnvFor(resolve, PT.RecordAt(s, id)))
    {
    }
  }

  /**
   Parse, plan and run. A text is refused if it is no sentence; otherwise it ends as the
   cast of its expression does, and an answer is exactly the stored packets the
   expression answers and the unchecked first hits.
   */
  method ExecuteQuery(text: string, fs: seq<FilterList>, ghost steps: seq<PP.Step>, s: PP.State,
                      resolve: Resolver, count: IndexFilter -> nat)
    returns (out: Outcome)
    requires QueryLexer.EOF_BYTE !in text
    requires PP.RunOk(PP.Init(fs), steps) && s == PP.Run(PP.Init(fs), steps)
    requires PI.Idle(s) && PI.NoEmptyBursts(s) && PL.Tame(s)
    requires Resolves(resolve) && forall f :: count(f) < UINT64_MAX
    ensures (forall e :: !TextParser.Denotes(text, e)) ==> out.Refused?
    ensures forall e :: TextParser.Denotes(text, e) ==>
              && CastOutcome(s, AstE(e), resolve, count, out)
              && (out.Answered? ==> TextAnswer(s, e, resolve, count, out.ids))
  {
    var x := TextParser.ParseText(text);
    if x.Err? { return Refused(x.error); }
    out := ExecuteCast(fs, steps, s, x.value, resolve, count);
    forall e | TextParser.Denotes(text, e)
      ensures CastOutcome(s, AstE(e), resolve, count, out) && (out.Answered? ==> TextAnswer(s, e, resolve, count, out.ids))
    {
      if out.Answered? { AnswersText(s, e, resolve, count, out.ids); }
    }
  }
}
