/**
 * The WhatsApp client wrapper's constructor (WhatsAppClientWrapper.cs):
 * a fixed sequence of guard checks on the adapter options, after which
 * the options are kept as they were passed in.
 */
module ClientWrapper {

  import opened Wrappers
  import Strings

  /** WhatsAppAdapterOptions; a null field is None, a URI is its text. */
  datatype AdapterOptions = AdapterOptions(
    whatsAppNumber: Option<string>,
    gsApiKey: Option<string>,
    gsApiUri: Option<string>,
    gsMediaUri: Option<string>)

  /** ArgumentNullException and ArgumentException, with the name they carry. */
  datatype OptionsError = ArgumentNull(parameter: string) | InvalidArgument(parameter: string)

  /** The constructor's checks, in the order it runs them; None when all pass. */
  function Validate(options: Option<AdapterOptions>): Option<OptionsError>
  {
    if options.None? then Some(ArgumentNull("options"))
    else
      var o := options.value;
      if Strings.IsNullOrWhiteSpace(o.whatsAppNumber) then Some(InvalidArgument("WhatsAppNumber"))
      else if Strings.IsNullOrWhiteSpace(o.gsApiKey) then Some(InvalidArgument("GsApiKey"))
      else if o.gsApiUri.None? then Some(InvalidArgument("GsApiUri"))
      else if o.gsMediaUri.None? then Some(InvalidArgument("GsMediaUri"))
      else None
  }

  /** One guard: whether it fails, and what it throws then. */
  datatype Check = Check(fails: bool, error: OptionsError)

  /** The guards on present options, listed independently of how they are run. */
  function Checks(o: AdapterOptions): seq<Check>
  {
    [ Check(Strings.IsNullOrWhiteSpace(o.whatsAppNumber), InvalidArgument("WhatsAppNumber")),
      Check(Strings.IsNullOrWhiteSpace(o.gsApiKey), InvalidArgument("GsApiKey")),
      Check(o.gsApiUri.None?, InvalidArgument("GsApiUri")),
      Check(o.gsMediaUri.None?, InvalidArgument("GsMediaUri")) ]
  }

  /** The error of the first failing guard, if any. */
  function FirstFailure(checks: seq<Check>): Option<OptionsError>
  {
    if checks == [] then None
    else if checks[0].fails then Some(checks[0].error)
    else FirstFailure(checks[1..])
  }

  /** FirstFailure finds nothing exactly when no guard fails, and otherwise the error of a failing guard with none failing before it. */
  lemma {:induction false} FirstFailureSpec(checks: seq<Check>)
    ensures FirstFailure(checks).None? <==> forall k :: 0 <= k < |checks| ==> !checks[k].fails
    ensures FirstFailure(checks).Some? ==>
      exists k :: 0 <= k < |checks| && checks[k].fails && FirstFailure(checks).value == checks[k].error
                  && forall j :: 0 <= j < k ==> !checks[j].fails
  {
    if checks != [] && !checks[0].fails {
      var tail := checks[1..];
      FirstFailureSpec(tail);
      assert forall j :: 1 <= j < |checks| ==> checks[j] == tail[j - 1];
      if FirstFailure(tail).Some? {
        var k :| 0 <= k < |tail| && tail[k].fails && FirstFailure(tail).value == tail[k].error
                 && forall j :: 0 <= j < k ==> !tail[j].fails;
        assert checks[k + 1] == tail[k];
      }
    }
  }

  /**
   * Null options throw ArgumentNullException; otherwise the first failing
   * check, in the order number, key, API URI, media URI, decides the
   * ArgumentException, and the options pass exactly when none fails.
   */
  lemma ValidateIsFirstFailure(options: Option<AdapterOptions>)
    ensures options.None? ==> Validate(options) == Some(ArgumentNull("options"))
    ensures options.Some? ==> Validate(options) == FirstFailure(Checks(options.value))
  {
    if options.Some? {
      var cs := Checks(options.value);
      var c1 := cs[1..];
      var c2 := c1[1..];
      var c3 := c2[1..];
      assert c1[0] == cs[1] && c2[0] == cs[2] && c3[0] == cs[3];
      assert c3[1..] == [];
      assert FirstFailure(c3) == (if cs[3].fails then Some(cs[3].error) else None);
      assert FirstFailure(c2) == (if cs[2].fails then Some(cs[2].error) else FirstFailure(c3));
      assert FirstFailure(c1) == (if cs[1].fails then Some(cs[1].error) else FirstFailure(c2));
      assert FirstFailure(cs) == (if cs[0].fails then Some(cs[0].error) else FirstFailure(c1));
    }
  }

  /** A wrapper exists only for options that pass every check, and keeps them unchanged. */
  class WhatsAppClientWrapper {

    const options: AdapterOptions

    constructor(options: AdapterOptions)
      requires Validate(Some(options)).None?
      ensures this.options == options
    {
      this.options := options;
    }
  }

  /** `new WhatsAppClientWrapper(options)`: the wrapper, or the exception the constructor throws. */
  method NewWrapper(options: Option<AdapterOptions>) returns (r: Result<WhatsAppClientWrapper, OptionsError>)
    ensures r.Failure? <==> Validate(options).Some?
    ensures r.Failure? ==> r.error == Validate(options).value
    ensures r.Success? ==> fresh(r.value) && r.value.options == options.value
  {
    var failure := Validate(options);
    if failure.Some? {
      return Failure(failure.value);
    }
    var wrapper := new WhatsAppClientWrapper(options.value);
    return Success(wrapper);
  }
}
