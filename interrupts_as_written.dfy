/**
 * Board::attachInterrupt and Board::detachInterrupt exactly as written.
 * Inside a member of Board, the unqualified calls `attachInterrupt(pin,
 * handler, mode)` and `detachInterrupt(pin)` name the member itself (class
 * scope hides the platform functions of the same name, and the argument
 * types match exactly), so each call recurses instead of reaching the
 * platform. `depth` is the number of nested calls the stack can hold;
 * None means the stack ran out before the call returned.
 *
 * The corrected behaviour, one platform call and then the record update,
 * is Esp8266.Board.AttachInterrupt and Esp8266.Board.DetachInterrupt.
 */
module InterruptsAsWritten {
  import opened Types

  /** The (carrier-detect, data-ready) records after attachInterrupt as
      written: the recursive call comes before either record is touched.
      Were a call ever to return, the pin's own record would be set. */
  function AttachAsWritten(pin: uint8, cd: bool, dr: bool, depth: nat): (r: Option<(bool, bool)>)
    ensures r.Some? && pin == PIN_CD ==> r.value.0
    ensures r.Some? && pin == PIN_DR ==> r.value.1
    decreases depth
  {
    if depth == 0 then None
    else match AttachAsWritten(pin, cd, dr, depth - 1)
      case None => None
      case Some(records) => Some((records.0 || pin == PIN_CD, records.1 || pin == PIN_DR))
  }

  /** attachInterrupt as written never returns, whatever the pin and
      however deep the stack: no record is ever set. */
  lemma {:induction false} AttachAsWrittenNeverReturns(pin: uint8, cd: bool, dr: bool, depth: nat)
    ensures AttachAsWritten(pin, cd, dr, depth) == None
    decreases depth
  {
    if depth > 0 {
      AttachAsWrittenNeverReturns(pin, cd, dr, depth - 1);
    }
  }

  /** The records after detachInterrupt as written: each guarded branch
      calls detachInterrupt(pin) again, with the record still set, before
      clearing it. Whenever a call returns, the pin's own record is clear. */
  function DetachAsWritten(pin: uint8, cd: bool, dr: bool, depth: nat): (r: Option<(bool, bool)>)
    ensures r.Some? && pin == PIN_CD ==> !r.value.0
    ensures r.Some? && pin == PIN_DR ==> !r.value.1
    decreases depth
  {
    if depth == 0 then None
    else
      var afterCd :=
        if pin == PIN_CD && cd then
          match DetachAsWritten(pin, cd, dr, depth - 1)
          case None => None
          case Some(records) => Some((false, records.1))
        else Some((cd, dr));
      match afterCd
      case None => None
      case Some(records) =>
        if pin == PIN_DR && records.1 then
          match DetachAsWritten(pin, records.0, records.1, depth - 1)
          case None => None
          case Some(inner) => Some((inner.0, false))
        else Some(records)
  }

  /** detachInterrupt as written returns (given a stack frame at all)
      exactly when the pin is not a reserved pin marked attached, and then
      changes nothing; for an attached reserved pin it never returns, so it
      can never clear a record. */
  lemma {:induction false} DetachAsWrittenDiverges(pin: uint8, cd: bool, dr: bool, depth: nat)
    requires depth > 0
    ensures DetachAsWritten(pin, cd, dr, depth).None? <==> (pin == PIN_CD && cd) || (pin == PIN_DR && dr)
    ensures DetachAsWritten(pin, cd, dr, depth).Some? ==> DetachAsWritten(pin, cd, dr, depth) == Some((cd, dr))
    decreases depth
  {
    if depth > 1 {
      DetachAsWrittenDiverges(pin, cd, dr, depth - 1);
    }
  }
}
