/**
  A time range that is edited as a proposed start and a proposed end.  A valid
  proposal is written to the source, whose change sets the proposal in turn.
 */
module TimeRanges {

  datatype Range = Range(start: int, end: int) {
    predicate Valid() {
      start <= end
    }
  }

  /** The source, the proposal, and every value that the source took, the transient ones included. */
  datatype State = State(source: Range, proposal: Range, history: seq<Range>) {

    /** The source is valid, and equals the proposal if that is valid. */
    predicate Consistent() {
      source.Valid() && (proposal.Valid() ==> source == proposal)
    }

    /** A valid proposal equals the source. */
    predicate Agrees() {
      proposal.Valid() ==> source == proposal
    }

    predicate AlwaysValid() {
      forall r :: r in history ==> r.Valid()
    }
  }

  /** A different and valid proposal is written to the source. */
  function Proposed(s: State, p: Range): State {
    if p != s.proposal && p.Valid() && p != s.source then State(p, p, s.history + [p]) else s.(proposal := p)
  }

  /**
    An update of the source.  When both ends change, the source may take the new
    start with the old end on the way; an invalid update leaves it there.
   */
  function Updated(s: State, v: Range): State {
    if v == s.source then s
    else
      var p := s.proposal;
      if v.start == p.start || v.end == p.end || v.start > p.end then State(v, v, s.history + [v])
      else if v.Valid() then State(v, v, s.history + [v, Range(v.start, p.end), v])
      else State(Range(v.start, p.end), v, s.history + [v, Range(v.start, p.end)])
  }

  datatype Edit = Start(t: int) | End(t: int) | Update(v: Range)

  function AfterEdits(s: State, edits: seq<Edit>): State {
    if edits == [] then s
    else
      var prev := AfterEdits(s, edits[..|edits| - 1]);
      match edits[|edits| - 1]
      case Start(t) => Proposed(prev, Range(t, prev.proposal.end))
      case End(t) => Proposed(prev, Range(prev.proposal.start, t))
      case Update(v) => Updated(prev, v)
  }

  /** A valid update arrives in the source, and any update that changes the source arrives in the proposal; an update to the same value changes nothing. */
  lemma UpdateArrives(s: State, v: Range)
    ensures v.Valid() ==> Updated(s, v).source == v
    ensures if v == s.source then Updated(s, v) == s else Updated(s, v).proposal == v
  {
  }

  /** A proposal is kept as it is, and goes to the source exactly if it is valid; otherwise the source is left alone. */
  lemma ProposalArrives(s: State, p: Range)
    requires s.Agrees()
    ensures Proposed(s, p).proposal == p
    ensures Proposed(s, p).source == if p.Valid() then p else s.source
    ensures !p.Valid() ==> Proposed(s, p).history == s.history
  {
  }

  /** The start that the edits leave in the proposal: the one that was set last, if the updates that count are those that change the source. */
  function LastStart(s: State, edits: seq<Edit>): int
    decreases |edits|, 0
  {
    if edits == [] then s.proposal.start
    else
      var prev := edits[..|edits| - 1];
      match edits[|edits| - 1]
      case Start(t) => t
      case End(_) => LastStart(s, prev)
      case Update(v) => if v == LastSource(s, prev) then LastStart(s, prev) else v.start
  }

  function LastEnd(s: State, edits: seq<Edit>): int
    decreases |edits|, 0
  {
    if edits == [] then s.proposal.end
    else
      var prev := edits[..|edits| - 1];
      match edits[|edits| - 1]
      case Start(_) => LastEnd(s, prev)
      case End(t) => t
      case Update(v) => if v == LastSource(s, prev) then LastEnd(s, prev) else v.end
  }

  /** The value that reached the source last: an update, or a proposal that was valid when it was completed. */
  function LastSource(s: State, edits: seq<Edit>): Range
    decreases |edits|, 1
  {
    if edits == [] then s.source
    else
      var before, proposal := LastSource(s, edits[..|edits| - 1]), Range(LastStart(s, edits), LastEnd(s, edits));
      match edits[|edits| - 1]
      case Update(v) => v
      case _ => if proposal.Valid() then proposal else before
  }

  /** Whatever the edits and valid updates: the last of them that concerns it decides what the proposal and the source are. */
  lemma {:induction false} LastEditDecides(s: State, edits: seq<Edit>)
    requires s.Agrees() && forall e :: e in edits && e.Update? ==> e.v.Valid()
    ensures var t := AfterEdits(s, edits);
            t.proposal == Range(LastStart(s, edits), LastEnd(s, edits)) && t.source == LastSource(s, edits)
  {
    if edits != [] {
      var prev := edits[..|edits| - 1];
      LastEditDecides(s, prev);
      EditsKeepAgreement(s, prev);
      assert edits[|edits| - 1] in edits;
    }
  }

  /** The value of the source is the one that it took last. */
  lemma {:induction false} SourceIsLastInHistory(s: State, edits: seq<Edit>)
    requires s.history != [] && s.history[|s.history| - 1] == s.source
    ensures var t := AfterEdits(s, edits); t.history != [] && t.history[|t.history| - 1] == t.source
  {
    if edits != [] {
      SourceIsLastInHistory(s, edits[..|edits| - 1]);
    }
  }

  /**
    Under any sequence of edits and valid updates the source is valid at all times,
    its transient values included, and equals the proposal whenever that is valid.
   */
  lemma {:induction false} EditsKeepConsistent(s: State, edits: seq<Edit>)
    requires s.Consistent() && s.AlwaysValid()
    requires forall e :: e in edits && e.Update? ==> e.v.Valid()
    ensures AfterEdits(s, edits).Consistent() && AfterEdits(s, edits).AlwaysValid()
  {
    if edits != [] {
      EditsKeepConsistent(s, edits[..|edits| - 1]);
      assert edits[|edits| - 1] in edits;
    }
  }

  /** A valid proposal equals the source under any edits and any updates, whatever the source was. */
  lemma {:induction false} EditsKeepAgreement(s: State, edits: seq<Edit>)
    requires s.Agrees()
    ensures AfterEdits(s, edits).Agrees()
  {
    if edits != [] {
      EditsKeepAgreement(s, edits[..|edits| - 1]);
    }
  }

  lemma {:induction false} HistoryGrows(s: State, edits: seq<Edit>, k: nat)
    requires k <= |edits|
    ensures AfterEdits(s, edits[..k]).history <= AfterEdits(s, edits).history
    decreases |edits|
  {
    if k < |edits| {
      assert edits[..|edits| - 1][..k] == edits[..k];
      HistoryGrows(s, edits[..|edits| - 1], k);
    } else {
      assert edits[..k] == edits;
    }
  }

  /** From a consistent start, the source is valid at all times exactly if all updates are. */
  lemma {:induction false} SourceStaysValidExactly(s: State, edits: seq<Edit>)
    requires s.Consistent() && s.AlwaysValid()
    ensures AfterEdits(s, edits).AlwaysValid() <==> forall e :: e in edits && e.Update? ==> e.v.Valid()
  {
    if edits != [] {
      var prev, last := edits[..|edits| - 1], edits[|edits| - 1];
      assert edits == prev + [last];
      SourceStaysValidExactly(s, prev);
      HistoryGrows(s, edits, |prev|);
      var before, after := AfterEdits(s, prev), AfterEdits(s, edits);
      if !before.AlwaysValid() {
        var r :| r in before.history && !r.Valid();
        assert r in after.history;
      } else {
        EditsKeepConsistent(s, prev);
        if last.Update? && !last.v.Valid() {
          assert last.v in after.history;
        }
      }
    }
  }

  /** After an update with an invalid range the source is valid exactly if it took the new start with the old end. */
  lemma InvalidUpdate(s: State, v: Range)
    requires s.Consistent() && !v.Valid()
    ensures Updated(s, v).source.Valid() <==> v.start != s.proposal.start && v.start <= s.proposal.end
    ensures Updated(s, v).proposal == v
  {
  }

  class TimeRange {
    var source: Range
    var proposedStart: int
    var proposedEnd: int
    ghost var history: seq<Range>

    ghost function View(): State
      reads this
    {
      State(source, Range(proposedStart, proposedEnd), history)
    }

    constructor (source: Range)
      ensures View() == State(source, source, [source])
      ensures source.Valid() ==> View().Consistent() && View().AlwaysValid()
    {
      this.source, proposedStart, proposedEnd, history := source, source.start, source.end, [source];
    }

    /** Writes the proposal to the source if it is valid. */
    method PropositionChanged()
      modifies this
      ensures var p := old(View()).proposal;
              View() == if p.Valid() && p != old(source) then State(p, p, old(history) + [p]) else old(View())
      decreases 2
    {
      if proposedStart <= proposedEnd {
        SetSource(Range(proposedStart, proposedEnd));
      }
    }

    method SetProposedStart(t: int)
      modifies this
      ensures View() == Proposed(old(View()), Range(t, old(proposedEnd)))
      ensures proposedStart == t && proposedEnd == old(proposedEnd)
      decreases if t == proposedStart then 0 else 3
    {
      if proposedStart == t {
        return;
      }
      proposedStart := t;
      PropositionChanged();
    }

    method SetProposedEnd(t: int)
      modifies this
      ensures View() == Proposed(old(View()), Range(old(proposedStart), t))
      ensures proposedEnd == t && proposedStart == old(proposedStart)
      decreases if t == proposedEnd then 0 else 3
    {
      if proposedEnd == t {
        return;
      }
      proposedEnd := t;
      PropositionChanged();
    }

    /** The change of the source sets both ends of the proposal, one after the other. */
    method SetSource(v: Range)
      modifies this
      ensures View() == Updated(old(View()), v)
      ensures v.Valid() ==> source == v
      ensures v != old(source) ==> View().proposal == v
      decreases if v == Range(proposedStart, proposedEnd) then 1 else 4
    {
      if source == v {
        return;
      }
      source := v;
      history := history + [v];
      SetProposedStart(v.start);
      SetProposedEnd(v.end);
    }
  }
}
