/** The global options' credential and zone check (command/global_option.go). */
module GlobalOptions {
  import opened Validators

  const DefaultZone: string := "is1a"

  /** The part of the global options that validation reads and writes. */
  datatype GlobalOption = GlobalOption(
    accessToken: string,
    accessTokenSecret: string,
    zone: string,
    validated: bool,
    valid: bool,
    validationResults: seq<FieldError>)

  datatype Validation = Validation(option: GlobalOption, errs: seq<FieldError>)

  /** The order in which `Validate` reports its checks. */
  function CheckRank(e: FieldError): nat {
    match e
    case Required(field) => if field == "token" then 0 else if field == "secret" then 1 else 2
    case NotAllowed(_, _) => 3
    case BadResourceID(_, _) => 4
  }

  /** The checks `Validate` makes when authentication is not skipped: one
      error per failed check, and a non-empty zone other than `is1a` is
      rejected. `isEmpty` is the program's `IsEmpty`. */
  function AuthErrors(o: GlobalOption, isEmpty: Value -> bool): (errs: seq<FieldError>)
    ensures Required("token") in errs <==> isEmpty(Str(o.accessToken))
    ensures Required("secret") in errs <==> isEmpty(Str(o.accessTokenSecret))
    ensures Required("zone") in errs <==> isEmpty(Str(o.zone))
    ensures NotAllowed("zone", [DefaultZone]) in errs <==> o.zone != "" && o.zone != DefaultZone
    ensures forall e :: e in errs ==>
      e in [Required("token"), Required("secret"), Required("zone"), NotAllowed("zone", [DefaultZone])]
  {
    var token := ValidateRequired("token", Str(o.accessToken), isEmpty);
    var secret := ValidateRequired("secret", Str(o.accessTokenSecret), isEmpty);
    var zone := ValidateRequired("zone", Str(o.zone), isEmpty);
    var zoneValue := ValidateInStrValues("zone", Str(o.zone), [DefaultZone]);
    token + secret + zone + zoneValue
  }

  /** The errors come in the order of the checks: token, secret, zone, zone value. */
  lemma AuthErrorsInOrder(o: GlobalOption, isEmpty: Value -> bool)
    ensures InCheckOrder(AuthErrors(o, isEmpty))
  {
    var token := ValidateRequired("token", Str(o.accessToken), isEmpty);
    var secret := ValidateRequired("secret", Str(o.accessTokenSecret), isEmpty);
    var zone := ValidateRequired("zone", Str(o.zone), isEmpty);
    var zoneValue := ValidateInStrValues("zone", Str(o.zone), [DefaultZone]);
    InOrderConcat(token, secret, 1);
    InOrderConcat(token + secret, zone, 2);
    InOrderConcat(token + secret + zone, zoneValue, 3);
  }

  /** Each error's check comes strictly after the one before it. */
  predicate InCheckOrder(errs: seq<FieldError>) {
    forall i, j :: 0 <= i < j < |errs| ==> CheckRank(errs[i]) < CheckRank(errs[j])
  }

  /** Appending at most one error of rank `k` to errors ranked below `k`
      keeps the order. */
  lemma InOrderConcat(a: seq<FieldError>, b: seq<FieldError>, k: nat)
    requires InCheckOrder(a) && forall i :: 0 <= i < |a| ==> CheckRank(a[i]) < k
    requires |b| <= 1 && forall i :: 0 <= i < |b| ==> CheckRank(b[i]) == k
    ensures InCheckOrder(a + b) && forall i :: 0 <= i < |a + b| ==> CheckRank((a + b)[i]) <= k
  {
  }

  /** `Validate(skipAuth)`: the options record that they were validated,
      whether they are valid and the errors found; skipping authentication
      skips every check. */
  function Validate(o: GlobalOption, skipAuth: bool, isEmpty: Value -> bool): (r: Validation)
    ensures r.option.validated
    ensures r.option.valid <==> r.errs == []
    ensures r.option.validationResults == r.errs
    ensures r.option.accessToken == o.accessToken && r.option.accessTokenSecret == o.accessTokenSecret && r.option.zone == o.zone
    ensures skipAuth ==> r.errs == [] && r.option.valid
    ensures !skipAuth ==> r.errs == AuthErrors(o, isEmpty)
  {
    var errs := if skipAuth then [] else AuthErrors(o, isEmpty);
    Validation(o.(validated := true, valid := |errs| == 0, validationResults := errs), errs)
  }
}
