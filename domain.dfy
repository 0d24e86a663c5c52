/** Values shared by every page: optional values, request statuses, account
    roles and the request lifecycle graph. */
module Domain {

  /** A value that may be missing (`null` / `undefined` in the pages). */
  datatype Option<+T> = None | Some(value: T)

  /** A text value is truthy in the pages' `x || fallback` tests when it is
      neither null nor empty. */
  predicate Present(s: Option<string>)
  {
    s.Some? && s.value != []
  }

  /** The `status` column of `space_requests`.  `Rejected` stands for the
      decline outcome that the approval page writes; that page is not part
      of this model, so no operation here produces it. */
  datatype Status = Pending | Approved | Active | Completed | Rejected

  /** The columns of a `space_requests` row that the pages' queries read. */
  datatype RequestRow = RequestRow(id: string, spaceId: string, gardenerId: string, status: Status)

  /** The role attached to a signed-in account. */
  datatype Role = Gardener | Landowner

  /** Position along the single forward path pending -> approved -> active
      -> completed; the decline outcome is terminal like completion. */
  function Rank(s: Status): (r: nat)
    ensures r <= 3
    ensures r == 0 <==> s == Pending
    ensures r == 3 <==> s == Completed || s == Rejected
  {
    match s
    case Pending => 0
    case Approved => 1
    case Active => 2
    case Completed => 3
    case Rejected => 3
  }

  /** The lifecycle graph: the only status changes any page of the
      application is meant to make. */
  predicate Step(from: Status, to: Status)
  {
    || (from == Pending && to == Approved)
    || (from == Pending && to == Rejected)
    || (from == Approved && to == Active)
    || (from == Active && to == Completed)
  }

  /** Terminal statuses have no successor. */
  predicate Terminal(s: Status)
  {
    s == Completed || s == Rejected
  }

  /** Every edge of the graph moves strictly forward, never out of a
      terminal status, and the graph is deterministic past approval. */
  lemma StepMovesForward(from: Status, to: Status)
    requires Step(from, to)
    ensures Rank(from) < Rank(to)
    ensures !Terminal(from)
    ensures from != Pending ==> to == (if from == Approved then Active else Completed)
  {
  }

  /** Rank order is transitive along any two steps: a request never returns
      to a status it has left. */
  lemma TwoStepsNeverReturn(a: Status, b: Status, c: Status)
    requires Step(a, b) && Step(b, c)
    ensures a != c && Rank(a) + 2 <= Rank(c)
  {
    StepMovesForward(a, b);
    StepMovesForward(b, c);
  }
}
