/** The quote rule every scanner of the shell rests on. */
module QuoteStates {

  datatype Quotes = Quotes(inSingle: bool, inDouble: bool) {
    predicate Active() {
      inSingle || inDouble
    }
  }

  const UNQUOTED := Quotes(false, false)

  /** `c` opens or closes a quotation. */
  predicate IsBoundary(q: Quotes, c: char) {
    (c == '\'' && !q.inDouble) || (c == '"' && !q.inSingle)
  }

  function Toggle(q: Quotes, c: char): Quotes {
    if c == '\'' && !q.inDouble then q.(inSingle := !q.inSingle)
    else if c == '"' && !q.inSingle then q.(inDouble := !q.inDouble)
    else q
  }

  /** A boundary is just a character that changes the state. */
  lemma BoundaryIff(q: Quotes, c: char)
    ensures IsBoundary(q, c) <==> Toggle(q, c) != q
  {
  }

  function QuotesAfter(q: Quotes, s: string): Quotes
    decreases |s|
  {
    if s == "" then q else QuotesAfter(Toggle(q, s[0]), s[1..])
  }

  /** The two quotations never overlap, whatever is read. */
  lemma {:induction false} NeverBoth(q: Quotes, s: string)
    requires !(q.inSingle && q.inDouble)
    ensures !(QuotesAfter(q, s).inSingle && QuotesAfter(q, s).inDouble)
    decreases |s|
  {
    if s != "" { NeverBoth(Toggle(q, s[0]), s[1..]); }
  }

  class QuoteState {
    var inSingle: bool
    var inDouble: bool

    ghost function Fields(): Quotes
      reads this
    {
      Quotes(inSingle, inDouble)
    }

    constructor ()
      ensures Fields() == UNQUOTED
    {
      inSingle, inDouble := false, false;
    }

    /** True when `c` took part in quote bookkeeping. */
    method Consume(c: char) returns (taken: bool)
      modifies this
      ensures Fields() == Toggle(old(Fields()), c)
      ensures taken == IsBoundary(old(Fields()), c)
    {
      if c == '\'' && !inDouble { inSingle := !inSingle; return true; }
      if c == '"' && !inSingle { inDouble := !inDouble; return true; }
      return false;
    }

    predicate AnyActive()
      reads this
    {
      inSingle || inDouble
    }
  }
}
