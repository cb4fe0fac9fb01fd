/** AddPaintToRequest exactly as the paint repository writes it: after the
    paint, the request and the absence of a line for the pair are checked,
    the method calls itself with the same arguments instead of inserting.
    Each call reads the same unchanged tables, so on the path that should
    insert it never returns (in Go the stack overflows). The run is modelled
    with a bound on the number of nested calls. */
module AddPaintAsWritten {
  import opened Common
  import opened Ds

  /** What one call does: return an error (or nil), or call itself again. */
  datatype Step = Return(err: Option<Error>) | Recurse

  predicate HasLine(lines: map<nat, RequestsPaint>, requestId: int, paintId: int) {
    exists k :: k in lines && lines[k].requestId == requestId && lines[k].paintId == paintId
  }

  /** One call of the method as written. */
  function AddPaintStep(paints: map<nat, Paint>, requests: map<nat, PaintRequest>, lines: map<nat, RequestsPaint>,
                        requestId: int, paintId: int): (s: Step)
    ensures s == Recurse <==>
      0 <= paintId && paintId in paints && 0 <= requestId && requestId in requests && !HasLine(lines, requestId, paintId)
    ensures s.Return? ==> s.err.Some?
    ensures !(0 <= paintId && paintId in paints) ==> s == Return(Some(NotFound))
  {
    if !(0 <= paintId && paintId in paints) then Return(Some(NotFound))
    else if !(0 <= requestId && requestId in requests) then Return(Some(NotFound))
    else if HasLine(lines, requestId, paintId) then Return(Some(AlreadyExists))
    else Recurse
  }

  /** The call with at most `fuel` nested calls: Some(result) when it
      returns, None when every call recursed. The tables are never written,
      and a call that returns always reports an error. */
  function RunAsWritten(paints: map<nat, Paint>, requests: map<nat, PaintRequest>, lines: map<nat, RequestsPaint>,
                        requestId: int, paintId: int, fuel: nat): (r: Option<Option<Error>>)
    ensures r.Some? ==> r.value.Some?
    decreases fuel
  {
    match AddPaintStep(paints, requests, lines, requestId, paintId)
    case Return(err) => Some(err)
    case Recurse =>
      if fuel == 0 then None else RunAsWritten(paints, requests, lines, requestId, paintId, fuel - 1)
  }

  /** The discrepancy: for an existing paint and request without a line for
      the pair, no number of nested calls ever returns, so the line is never
      added. */
  lemma {:induction false} AsWrittenNeverAdds(paints: map<nat, Paint>, requests: map<nat, PaintRequest>,
                                              lines: map<nat, RequestsPaint>, requestId: nat, paintId: nat, fuel: nat)
    requires paintId in paints && requestId in requests && !HasLine(lines, requestId, paintId)
    ensures RunAsWritten(paints, requests, lines, requestId, paintId, fuel).None?
  {
    if fuel > 0 {
      AsWrittenNeverAdds(paints, requests, lines, requestId, paintId, fuel - 1);
    }
  }
}
