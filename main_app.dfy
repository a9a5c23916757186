/**
 * The application's request-validation handler (backend/app/main.py): on
 * the two video-processing paths a failed request body is answered with the
 * 400 error envelope, whose message lists every validation error.
 */
module MainApp {
  import opened Results
  import opened Text
  import opened VideoErrors

  /** An item of a validation error's location: a field name, a list index, or `None`. */
  datatype LocItem = LocStr(s: string) | LocInt(n: int) | LocNull

  /** One entry of `exc.errors()`; either key may be absent. */
  datatype ValidationErrorRecord = ValidationErrorRecord(loc: Option<seq<LocItem>>, msg: Option<string>)

  /** `loc[1:]` when the location starts with `"body"`, the location unchanged otherwise. */
  function StripBody(loc: seq<LocItem>): (r: seq<LocItem>)
    ensures |r| == |loc| - 1 <==> |loc| > 0 && loc[0] == LocStr("body")
    ensures |r| == |loc| || |r| == |loc| - 1
    ensures r == loc[|loc| - |r|..]
  {
    if |loc| > 0 && loc[0] == LocStr("body") then loc[1..] else loc
  }

  /** `str(item)` for a location item that is not `None`. */
  function ItemString(item: LocItem): string
    requires !item.LocNull?
  {
    match item
    case LocStr(s) => s
    case LocInt(n) => IntToString(n)
  }

  /** `str(item) for item in loc if item is not None`. */
  function LocStrings(loc: seq<LocItem>): (r: seq<string>)
    ensures |r| <= |loc|
    ensures (forall i :: 0 <= i < |loc| ==> !loc[i].LocNull?) ==>
      |r| == |loc| && forall i :: 0 <= i < |loc| ==> r[i] == ItemString(loc[i])
  {
    if loc == [] then []
    else
      var last := loc[|loc| - 1];
      LocStrings(loc[..|loc| - 1]) + (if last.LocNull? then [] else [ItemString(last)])
  }

  /** The field a location names: its items, `None` left out, joined by dots. */
  function FieldOf(loc: seq<LocItem>): string {
    Join(LocStrings(loc), ".")
  }

  const DefaultMessage: string := "Invalid value"
  const EmptyErrorsMessage: string := "Invalid request."

  /** The message part one error contributes. */
  function FormatPart(e: ValidationErrorRecord): string {
    var field := FieldOf(StripBody(if e.loc.Some? then e.loc.value else []));
    var msg := if e.msg.Some? then e.msg.value else DefaultMessage;
    if field != "" then field + ": " + msg else msg
  }

  /** The parts of the errors, in error order. */
  function Parts(errors: seq<ValidationErrorRecord>): (r: seq<string>)
    ensures |r| == |errors|
  {
    if errors == [] then [] else Parts(errors[..|errors| - 1]) + [FormatPart(errors[|errors| - 1])]
  }

  /** One part per error, in error order: part `i` is error `i`'s. */
  lemma {:induction false} PartOf(errors: seq<ValidationErrorRecord>, i: nat)
    requires i < |errors|
    ensures Parts(errors)[i] == FormatPart(errors[i])
    decreases |errors|
  {
    var init := errors[..|errors| - 1];
    var last := FormatPart(errors[|errors| - 1]);
    assert Parts(errors) == Parts(init) + [last];
    if i < |errors| - 1 {
      PartOf(init, i);
      assert init[i] == errors[i];
      assert Parts(errors)[i] == Parts(init)[i];
    }
  }

  /** What `_format_validation_error` returns for a list of errors. */
  function ValidationMessage(errors: seq<ValidationErrorRecord>): string {
    if errors == [] then EmptyErrorsMessage else Join(Parts(errors), "; ")
  }

  /** `_format_validation_error`. */
  method FormatValidationError(errors: seq<ValidationErrorRecord>) returns (s: string)
    ensures s == ValidationMessage(errors)
    ensures errors == [] ==> s == EmptyErrorsMessage
    ensures |errors| == 1 ==> s == FormatPart(errors[0])
  {
    if |errors| == 0 {
      return EmptyErrorsMessage;
    }
    var parts: seq<string> := [];
    var i := 0;
    while i < |errors|
      invariant 0 <= i <= |errors|
      invariant parts == Parts(errors[..i])
    {
      var part := FormatOne(errors[i]);
      PartsSnoc(errors, i);
      parts := parts + [part];
      i := i + 1;
    }
    assert errors[..|errors|] == errors;
    s := Join(parts, "; ");
  }

  lemma PartsSnoc(errors: seq<ValidationErrorRecord>, i: nat)
    requires i < |errors|
    ensures Parts(errors[..i + 1]) == Parts(errors[..i]) + [FormatPart(errors[i])]
  {
    assert errors[..i + 1][..i] == errors[..i];
  }

  /** The loop body: the part for one error. */
  method FormatOne(err: ValidationErrorRecord) returns (part: string)
    ensures part == FormatPart(err)
  {
    var loc := if err.loc.Some? then err.loc.value else [];
    if |loc| > 0 && loc[0] == LocStr("body") {
      loc := loc[1..];
    }
    var field := FieldOf(loc);
    var msg := if err.msg.Some? then err.msg.value else DefaultMessage;
    part := if field != "" then field + ": " + msg else msg;
  }

  /** A single error's message is its part alone. */
  lemma SingleErrorMessage(e: ValidationErrorRecord)
    ensures ValidationMessage([e]) == FormatPart(e)
  {
  }

  /** Each further error adds `"; "` and its own part at the end. */
  lemma AppendErrorMessage(errors: seq<ValidationErrorRecord>, e: ValidationErrorRecord)
    requires errors != []
    ensures ValidationMessage(errors + [e]) == ValidationMessage(errors) + "; " + FormatPart(e)
  {
    PartsAppend(errors, e);
    JoinAppend(Parts(errors), FormatPart(e), "; ");
  }

  lemma PartsAppend(errors: seq<ValidationErrorRecord>, e: ValidationErrorRecord)
    ensures Parts(errors + [e]) == Parts(errors) + [FormatPart(e)]
  {
    assert (errors + [e])[..|errors|] == errors;
  }

  /** Only one leading `"body"` item is removed; a second one, or one later on, stays. */
  lemma OnlyLeadingBodyDropped(rest: seq<LocItem>)
    ensures StripBody([LocStr("body")] + rest) == rest
    ensures |rest| > 0 && rest[0] != LocStr("body") ==> StripBody(rest) == rest
  {
    assert ([LocStr("body")] + rest)[1..] == rest;
  }

  lemma {:induction false} LocStringsAppend(a: seq<LocItem>, b: seq<LocItem>)
    ensures LocStrings(a + b) == LocStrings(a) + LocStrings(b)
    decreases |b|
  {
    if b == [] {
      assert a + b == a;
    } else {
      var init := b[..|b| - 1];
      var last := b[|b| - 1];
      assert (a + b)[..|a + b| - 1] == a + init;
      LocStringsAppend(a, init);
      assert LocStrings(b) == LocStrings(init) + (if last.LocNull? then [] else [ItemString(last)]);
    }
  }

  /** `None` items contribute nothing to the field name. */
  lemma FieldSkipsNull(a: seq<LocItem>, b: seq<LocItem>)
    ensures FieldOf(a + [LocNull] + b) == FieldOf(a + b)
  {
    var withNull := a + [LocNull];
    assert LocStrings(withNull) == LocStrings(a) by {
      assert withNull[..|withNull| - 1] == a;
    }
    assert LocStrings(withNull + b) == LocStrings(a) + LocStrings(b) by {
      LocStringsAppend(withNull, b);
    }
    LocStringsAppend(a, b);
  }

  /** A location of names and indices reads as `name.index...`. */
  lemma FieldOfPath(name: string, index: nat)
    ensures FieldOf([LocStr(name), LocInt(index)]) == name + "." + NatToString(index)
  {
    var loc := [LocStr(name), LocInt(index)];
    assert loc[..1] == [LocStr(name)];
    assert IntToString(index) == NatToString(index);
    assert LocStrings(loc) == [name, NatToString(index)];
    assert [name, NatToString(index)][..1] == [name];
    assert Join([name, NatToString(index)], ".") == Join([name], ".") + "." + NatToString(index);
  }

  /** The message for a missing body field names the field without the `body` prefix. */
  lemma MissingFieldMessage(name: string, msg: string)
    requires name != ""
    ensures FormatPart(ValidationErrorRecord(Some([LocStr("body"), LocStr(name)]), Some(msg))) == name + ": " + msg
  {
    assert StripBody([LocStr("body"), LocStr(name)]) == [LocStr(name)];
    assert LocStrings([LocStr(name)]) == [name];
  }

  /** An error without location or message still produces a part: the default message. */
  lemma BareErrorMessage()
    ensures FormatPart(ValidationErrorRecord(None, None)) == DefaultMessage
  {
    assert LocStrings([]) == [];
  }

  /** The two paths on which validation errors get the video error envelope. */
  predicate UsesVideoEnvelope(path: string, apiPrefix: string) {
    path == apiPrefix + "/video/process" || path == apiPrefix + "/video/process/"
  }

  /**
   * `video_request_validation_handler`: the 400 envelope on the video paths;
   * `None` stands for handing the request to FastAPI's default handler.
   */
  method HandleRequestValidation(path: string, apiPrefix: string, errors: seq<ValidationErrorRecord>)
    returns (r: Option<JsonErrorResponse>)
    ensures r.Some? <==> UsesVideoEnvelope(path, apiPrefix)
    ensures r.Some? ==> r.value.statusCode == 400 && r.value.content.code == 400
    ensures r.Some? ==> r.value.content.status == "error" && r.value.content.error == ValidationMessage(errors)
  {
    if UsesVideoEnvelope(path, apiPrefix) {
      var message := FormatValidationError(errors);
      return Some(ErrorResponseFor(message, 400));
    }
    return None;
  }

  /** Any other path, such as another route under the prefix, falls through. */
  lemma OtherPathFallsThrough(apiPrefix: string)
    ensures !UsesVideoEnvelope(apiPrefix + "/users/", apiPrefix)
    ensures !UsesVideoEnvelope(apiPrefix + "/video/process/extra", apiPrefix)
  {
    var p := apiPrefix + "/users/";
    assert p[|apiPrefix| + 1] == 'u';
    assert (apiPrefix + "/video/process")[|apiPrefix| + 1] == 'v';
    assert (apiPrefix + "/video/process/")[|apiPrefix| + 1] == 'v';
    var q := apiPrefix + "/video/process/extra";
    assert |q| != |apiPrefix + "/video/process"| && |q| != |apiPrefix + "/video/process/"|;
  }
}
