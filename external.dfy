/**
 * External validators: reading their definitions out of the configuration,
 * wrapping them as validators, and turning the outcome of running the
 * configured executable into a pass or a failure.
 */
module External {
  import opened Wrappers
  import opened Values
  import opened Errors
  import opened Format

  /** One configured external validator. */
  datatype ValidatorDefinition = ValidatorDefinition(
    name: string,   // display name
    path: string,   // executable to run
    args: seq<string>,
    fatal: bool,    // a failure stops the pipeline for the endpoint
    slim: bool)     // send the response only, not the endpoint definition

  function ParseError(message: string): Error {
    Error(ExternalValidatorParseError, message)
  }

  // The fixed text of each error message; the dynamic part is appended.
  const ConfigNotArrayText := "cannot parse external validators. Expected []any, got "
  const EntryNotMapText := "cannot parse external validators. Expected map[string]any, got "
  const ArgsNotArrayText := "cannot parse external validator. expected []interface{}, got "
  const ArgNotStringText := "cannot parse external validator. expected []string, got []"
  const SerializeText := "cannot serialize item: "
  const FailedText := "validation failed: "
  const UnexpectedExitText := "unexpected exit code from external validator: "

  // ---------------------------------------------------------------------
  // parseArgs

  /** The index of the first element that is not a string, or `|items|` if there is none. */
  function FirstNonString(items: seq<Value>): (k: nat)
    ensures k <= |items|
    ensures forall j :: 0 <= j < k ==> items[j].Str?
    ensures k < |items| ==> !items[k].Str?
  {
    if items == [] || !items[0].Str? then 0 else 1 + FirstNonString(items[1..])
  }

  function StringsOf(items: seq<Value>): (r: seq<string>)
    requires forall j :: 0 <= j < |items| ==> items[j].Str?
    ensures |r| == |items| && forall j :: 0 <= j < |items| ==> items[j] == Str(r[j])
  {
    seq(|items|, j requires 0 <= j < |items| => items[j].s)
  }

  /**
   * What `parseArgs` yields for the `args` entry of a definition: the strings
   * of a `[]any` whose elements are all strings, otherwise the error naming
   * the offending type (the value, or its first non-string element).
   */
  function ArgsParsed(obj: Value): Result<seq<string>, Error> {
    if !obj.Arr? then
      Err(ParseError(ArgsNotArrayText + TypeName(obj)))
    else
      var k := FirstNonString(obj.items);
      if k < |obj.items| then
        Err(ParseError(ArgNotStringText + TypeName(obj.items[k])))
      else
        Ok(StringsOf(obj.items))
  }

  /** `parseArgs`: fills a freshly made slice element by element, stopping at the first non-string. */
  method ParseArgs(obj: Value) returns (r: Result<seq<string>, Error>)
    ensures r == ArgsParsed(obj)
  {
    if !obj.Arr? {
      return Err(ParseError(ArgsNotArrayText + TypeName(obj)));
    }
    var arr := obj.items;
    if |arr| == 0 {
      assert StringsOf(arr) == [];
      return Ok([]);
    }
    var args := new string[|arr|];
    for i := 0 to |arr|
      invariant forall j :: 0 <= j < i ==> arr[j].Str? && args[j] == arr[j].s
    {
      if !arr[i].Str? {
        return Err(ParseError(ArgNotStringText + TypeName(arr[i])));
      }
      args[i] := arr[i].s;
    }
    assert FirstNonString(arr) == |arr|;
    assert args[..] == StringsOf(arr);
    return Ok(args[..]);
  }

  /** A missing `args` key reads as `nil`, which is not an array: an error. */
  lemma ArgsMissingIsError(m: map<string, Value>)
    requires "args" !in m
    ensures ArgsParsed(Lookup(m, "args")) ==
            Err(ParseError(ArgsNotArrayText + "<nil>"))
  {
  }

  lemma ArgsEmptyIsEmpty()
    ensures ArgsParsed(Arr([])) == Ok([])
  {
    assert StringsOf([]) == [];
  }

  /** Any element that is not a string makes the whole argument list an error. */
  lemma ArgsNonStringIsError(items: seq<Value>, i: nat)
    requires i < |items| && !items[i].Str?
    ensures ArgsParsed(Arr(items)).Err?
    ensures ArgsParsed(Arr(items)).error.kind == ExternalValidatorParseError
  {
  }

  /** The arguments as they appear in the configuration: one string value per argument. */
  function ArgsValue(args: seq<string>): (v: Value)
    ensures v.Arr? && |v.items| == |args|
  {
    Arr(seq(|args|, j requires 0 <= j < |args| => Str(args[j])))
  }

  /** Parsing returns exactly the configured strings, in order ... */
  lemma ArgsRoundTrip(args: seq<string>)
    ensures ArgsParsed(ArgsValue(args)) == Ok(args)
  {
    var v := ArgsValue(args);
    assert forall j :: 0 <= j < |v.items| ==> v.items[j] == Str(args[j]);
    assert FirstNonString(v.items) == |v.items|;
    assert StringsOf(v.items) == args;
  }

  /** ... and nothing but them: a successful parse came from exactly those strings. */
  lemma ArgsOnlyFromStrings(obj: Value, args: seq<string>)
    requires ArgsParsed(obj) == Ok(args)
    ensures obj == ArgsValue(args)
  {
  }

  // ---------------------------------------------------------------------
  // parse

  /** An entry is a `map[string]any` whose `args` parse. */
  predicate EntryConverts(entry: Value) {
    entry.Obj? && ArgsParsed(Lookup(entry.fields, "args")).Ok?
  }

  /** The type assertions on `name`, `path` and `fatal` succeed. */
  predicate FieldsTyped(entry: Value) {
    entry.Obj? &&
    Lookup(entry.fields, "name").Str? &&
    Lookup(entry.fields, "path").Str? &&
    Lookup(entry.fields, "fatal").Bool?
  }

  /** The index of the first entry that does not convert, or `|items|`. */
  function FirstUnconverted(items: seq<Value>): (k: nat)
    ensures k <= |items|
    ensures forall j :: 0 <= j < k ==> EntryConverts(items[j])
    ensures k < |items| ==> !EntryConverts(items[k])
  {
    if items == [] || !EntryConverts(items[0]) then 0 else 1 + FirstUnconverted(items[1..])
  }

  /**
   * `parse` panics on an entry whose `name`, `path` or `fatal` is missing or
   * mistyped, once it gets that far: every entry before the first one that
   * does not convert is evaluated in full. This excludes exactly the panics.
   */
  predicate ParseDoesNotPanic(config: Value) {
    config.Arr? ==>
      forall j :: 0 <= j < FirstUnconverted(config.items) ==> FieldsTyped(config.items[j])
  }

  function EntryError(entry: Value): Error
    requires !EntryConverts(entry)
  {
    if !entry.Obj? then
      ParseError(EntryNotMapText + TypeName(entry))
    else
      ArgsParsed(Lookup(entry.fields, "args")).error
  }

  /** The definition built from one entry; `Slim` is never read from the configuration. */
  function Definition(entry: Value): ValidatorDefinition
    requires EntryConverts(entry) && FieldsTyped(entry)
  {
    ValidatorDefinition(
      entry.fields["name"].s,
      entry.fields["path"].s,
      ArgsParsed(Lookup(entry.fields, "args")).value,
      entry.fields["fatal"].b,
      false)
  }

  /**
   * What `parse` yields for the value `viper.Get` returned: no definitions
   * for `nil`, one definition per entry when every entry converts, and
   * otherwise the error of the first entry that does not.
   */
  function Parsed(config: Value): Result<seq<ValidatorDefinition>, Error>
    requires ParseDoesNotPanic(config)
  {
    if config.Nil? then
      Ok([])
    else if !config.Arr? then
      Err(ParseError(ConfigNotArrayText + TypeName(config)))
    else
      var items := config.items;
      var k := FirstUnconverted(items);
      if k < |items| then
        Err(EntryError(items[k]))
      else
        Ok(seq(|items|, j requires 0 <= j < |items| => Definition(items[j])))
  }

  /** `parse`, with the configuration lookup's result passed in. */
  method Parse(config: Value) returns (r: Result<seq<ValidatorDefinition>, Error>)
    requires ParseDoesNotPanic(config)
    ensures r == Parsed(config)
  {
    if config.Nil? {
      return Ok([]);
    }
    if !config.Arr? {
      return Err(ParseError(ConfigNotArrayText + TypeName(config)));
    }
    var arr := config.items;
    var validators := new ValidatorDefinition[|arr|];
    for i := 0 to |arr|
      invariant i <= FirstUnconverted(arr)
      invariant forall j :: 0 <= j < i ==> validators[j] == Definition(arr[j])
    {
      var entry := arr[i];
      if !entry.Obj? {
        return Err(ParseError(EntryNotMapText + TypeName(entry)));
      }
      var obj := entry.fields;
      var args := ParseArgs(Lookup(obj, "args"));
      if args.Err? {
        return Err(args.error);
      }
      assert EntryConverts(entry);
      assert i < FirstUnconverted(arr);
      validators[i] := ValidatorDefinition(obj["name"].s, obj["path"].s, args.value, obj["fatal"].b, false);
    }
    assert FirstUnconverted(arr) == |arr|;
    assert validators[..] == seq(|arr|, j requires 0 <= j < |arr| => Definition(arr[j]));
    return Ok(validators[..]);
  }

  /** No configured validators: no definitions and no error. */
  lemma ParseNilIsEmpty()
    ensures Parsed(Nil) == Ok([])
  {
  }

  /** A configuration value that is not an array is a parse error. */
  lemma ParseNonArrayIsError(config: Value)
    requires !config.Nil? && !config.Arr?
    ensures Parsed(config).Err? && Parsed(config).error.kind == ExternalValidatorParseError
  {
  }

  /** Either every entry converts, or the result is a parse error and no definitions. */
  lemma ParseAllOrNothing(config: Value)
    requires config.Arr? && ParseDoesNotPanic(config)
    ensures Parsed(config).Ok? <==> forall j :: 0 <= j < |config.items| ==> EntryConverts(config.items[j])
    ensures Parsed(config).Err? ==> Parsed(config).error.kind == ExternalValidatorParseError
  {
  }

  /** Any entry that is not a map makes the whole load fail. */
  lemma ParseNonMapEntryIsError(config: Value, i: nat)
    requires config.Arr? && ParseDoesNotPanic(config)
    requires i < |config.items| && !config.items[i].Obj?
    ensures Parsed(config).Err?
  {
  }

  /**
   * On success: one definition per entry, in entry order, with `name`, `path`
   * and `fatal` copied, the entry's own arguments, and `Slim` false.
   */
  lemma ParseCopiesEntries(config: Value)
    requires config.Arr? && ParseDoesNotPanic(config) && Parsed(config).Ok?
    ensures |Parsed(config).value| == |config.items|
    ensures forall j :: 0 <= j < |config.items| ==>
      var entry, d := config.items[j], Parsed(config).value[j];
      entry.Obj? &&
      Lookup(entry.fields, "name") == Str(d.name) &&
      Lookup(entry.fields, "path") == Str(d.path) &&
      Lookup(entry.fields, "fatal") == Bool(d.fatal) &&
      Lookup(entry.fields, "args") == ArgsValue(d.args) &&
      !d.slim
  {
  }

  // ---------------------------------------------------------------------
  // The validator

  /** `externalValidator`: a validator wrapping one definition. */
  datatype ExternalValidator = ExternalValidator(definition: ValidatorDefinition) {

    /** Namespaced so that an external validator cannot collide with a built-in one. */
    function Name(): (r: string)
      ensures |r| >= 9 && r[..9] == "external." && r[9..] == definition.name
    {
      "external." + definition.name
    }

    /** A failure of this validator stops the endpoint's pipeline exactly when its definition is fatal. */
    function IsFatal(): (r: bool)
      ensures r <==> definition.fatal
    {
      definition.fatal
    }

    /** The validator asks for the reduced view exactly when its definition is slim. */
    function IsSlim(): (r: bool)
      ensures r <==> definition.slim
    {
      definition.slim
    }
  }

  function NewExternalValidator(definition: ValidatorDefinition): (v: ExternalValidator)
    ensures v.Name() == "external." + definition.name
    ensures v.IsFatal() == definition.fatal && v.IsSlim() == definition.slim
  {
    ExternalValidator(definition)
  }

  /** Validators of different definition names have different names. */
  lemma NameInjective(v: ExternalValidator, w: ExternalValidator)
    ensures v.Name() == w.Name() <==> v.definition.name == w.definition.name
  {
  }

  /** `LoadExternalValidators`: parse, then wrap every definition, in order. */
  method LoadExternalValidators(config: Value) returns (r: Result<seq<ExternalValidator>, Error>)
    requires ParseDoesNotPanic(config)
    ensures Parsed(config).Err? ==> r == Err(Parsed(config).error)
    ensures Parsed(config).Ok? ==>
      r.Ok? && |r.value| == |Parsed(config).value| &&
      forall j :: 0 <= j < |r.value| ==> r.value[j] == NewExternalValidator(Parsed(config).value[j])
    ensures r.Ok? && config.Arr? ==>
      |r.value| == |config.items| &&
      forall j :: 0 <= j < |r.value| ==>
        Lookup(config.items[j].fields, "fatal") == Bool(r.value[j].IsFatal()) && !r.value[j].IsSlim()
  {
    var definitions := Parse(config);
    if definitions.Err? {
      return Err(definitions.error);
    }
    var defs := definitions.value;
    var externalValidators := new ExternalValidator[|defs|](_ => ExternalValidator(ValidatorDefinition("", "", [], false, false)));
    for i := 0 to |defs|
      invariant forall j :: 0 <= j < i ==> externalValidators[j] == NewExternalValidator(defs[j])
    {
      externalValidators[i] := NewExternalValidator(defs[i]);
    }
    if config.Arr? {
      ParseCopiesEntries(config);
    }
    return Ok(externalValidators[..]);
  }

  // ---------------------------------------------------------------------
  // Validate

  /** The outcome of `json.Marshal(item)` (the marshal whose result is used). */
  datatype MarshalOutcome = Marshalled(json: string) | MarshalFailed(reason: string)

  /**
   * The outcome of `cmd.Run()`: a clean exit, an `*exec.ExitError` with the
   * exit code and the captured standard error, or any other error (the
   * executable could not be started, or copying its streams failed).
   * `cmd.Run` never returns an `ExitError` with code 0 (a zero exit gives a
   * nil error), so `ExitError(0, _)` stands for no real run; `Validate`
   * would report it as a malfunction with code 0.
   */
  datatype RunOutcome = Exited | ExitError(code: int, stderr: string) | RunFailed(reason: string)

  /** The message of a failed check: the fixed text, then standard error, recoverable in full. */
  function FailureMessage(stderr: string): (m: string)
    ensures |m| >= |FailedText| && m[..|FailedText|] == FailedText
    ensures m[|FailedText|..] == stderr
  {
    FailedText + stderr
  }

  /** The message of a broken validator: the fixed text, then the exit code in decimal. */
  function UnexpectedExitMessage(code: int): (m: string)
    ensures var n := |FailedText + UnexpectedExitText|;
      |m| > n && m[..n] == FailedText + UnexpectedExitText &&
      m[n..] == IntToDecimal(code)
  {
    FailedText + UnexpectedExitText + IntToDecimal(code)
  }

  /**
   * `externalValidator.Validate`: `None` is a pass. `started` says whether
   * the external process was built and run.
   */
  method Validate(v: ExternalValidator, marshal: MarshalOutcome, run: RunOutcome)
    returns (verdict: Option<Error>, ghost started: bool)
    ensures marshal.MarshalFailed? ==>
      !started && verdict == Some(Error(CannotSerializeItemError, SerializeText + marshal.reason))
    ensures marshal.Marshalled? ==> started
    ensures marshal.Marshalled? && run.Exited? ==> verdict == None
    ensures marshal.Marshalled? && run.ExitError? && run.code == 1 ==>
      verdict == Some(Error(ValidationError, FailureMessage(run.stderr)))
    ensures marshal.Marshalled? && run.ExitError? && run.code != 1 ==>
      verdict == Some(Error(ValidationError, UnexpectedExitMessage(run.code)))
    ensures marshal.Marshalled? && run.RunFailed? ==> verdict == None
  {
    // Lines 120-129 first marshal the slim or the extended view of the item;
    // line 131 overwrites both results before either is read, so whatever
    // `Slim` says, the process receives the item itself.
    var err: Option<string> := None;
    if marshal.MarshalFailed? {
      err := Some(marshal.reason);
    }
    if err.Some? {
      return Some(Error(CannotSerializeItemError, SerializeText + err.value)), false;
    }
    started := true;
    match run
    case Exited =>
      verdict := None;
    case ExitError(code, stderr) =>
      if code == 1 {
        verdict := Some(Error(ValidationError, FailureMessage(stderr)));
      } else {
        verdict := Some(Error(ValidationError, UnexpectedExitMessage(code)));
      }
    case RunFailed(_) =>
      verdict := None;
  }

  /** The malfunction message names the exit code: different codes give different messages. */
  lemma UnexpectedExitMessageNamesCode(c: int, d: int)
    ensures UnexpectedExitMessage(c) == UnexpectedExitMessage(d) <==> c == d
  {
    IntDecimalInjective(c, d);
  }

  /**
   * The failure message carries the standard error verbatim, so a validator
   * that exits 1 can print text that reads exactly like a malfunction report.
   */
  lemma FailureCanReadAsMalfunction(code: int)
    ensures FailureMessage(UnexpectedExitText + IntToDecimal(code)) == UnexpectedExitMessage(code)
  {
  }
}
