/** The field validators of the command layer (command/validators.go). Each
    returns a list of errors that is empty or holds one error. */
module Validators {
  import opened Basics
  import opened Decimal

  /** The dynamic value behind an `interface{}` argument, as far as the
      validators look at it. */
  datatype Value = Nil | Str(s: string) | Int64(n: int64) | OtherValue

  /** A validation error; the wording of the message is not modelled. */
  datatype FieldError =
    | NotAllowed(field: string, allowValues: seq<string>)
    | Required(field: string)
    | BadResourceID(field: string, digits: nat)

  /** The number of digits a resource ID must have. */
  const IDLength: nat := 12

  /** `ValidateInStrValues`: a non-empty string must be one of `allowValues`;
      anything else (nil, the empty string, a value of another type) passes. */
  function ValidateInStrValues(field: string, v: Value, allowValues: seq<string>): (errs: seq<FieldError>)
    ensures |errs| <= 1
    ensures v.Nil? || v.OtherValue? || v.Int64? || v == Str("") ==> errs == []
    ensures v.Str? && v.s != "" ==> (errs != [] <==> v.s !in allowValues)
    ensures errs != [] ==> errs == [NotAllowed(field, allowValues)]
  {
    match v
    case Str(s) =>
      if s == "" then []
      else if !Contains(allowValues, s) then [NotAllowed(field, allowValues)]
      else []
    case _ => []
  }

  /** The scan for `s` among the allowed values, stopping at the first match. */
  function Contains(values: seq<string>, s: string): (found: bool)
    ensures found <==> s in values
    decreases |values|
  {
    if |values| == 0 then false
    else if values[0] == s then true
    else
      assert forall i :: 1 <= i < |values| ==> values[i] == values[1..][i - 1];
      Contains(values[1..], s)
  }

  /** `ValidateRequired`: one error exactly when the value counts as empty.
      What counts as empty is the program's `IsEmpty`, passed in. */
  function ValidateRequired(field: string, v: Value, isEmpty: Value -> bool): (errs: seq<FieldError>)
    ensures |errs| <= 1
    ensures errs != [] <==> isEmpty(v)
    ensures errs != [] ==> errs == [Required(field)]
  {
    if isEmpty(v) then [Required(field)] else []
  }

  /** `ValidateSakuraID`: a non-zero int64 must be non-negative and print
      with exactly twelve digits; nil, zero and other types pass. */
  function ValidateSakuraID(field: string, v: Value): (errs: seq<FieldError>)
    ensures |errs| <= 1
    ensures errs != [] ==> errs == [BadResourceID(field, IDLength)]
    ensures v.Nil? || v.Str? || v.OtherValue? || v == Int64(0) ==> errs == []
  {
    match v
    case Int64(id) =>
      if id == 0 then []
      else if id < 0 || |IntToString(id)| != IDLength then [BadResourceID(field, IDLength)]
      else []
    case _ => []
  }

  /** A non-zero int64 passes exactly when it lies between 100000000000
      and 999999999999. */
  lemma SakuraIDRange(field: string, id: int64)
    requires id != 0
    ensures ValidateSakuraID(field, Int64(id)) == [] <==> 100000000000 <= id <= 999999999999
  {
    if id > 0 {
      NatToStringLength(id, IDLength);
      assert Pow10(11) == 100000000000 && Pow10(12) == 1000000000000;
    }
  }
}
