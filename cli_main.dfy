/** The command line of `put_cat_to_ch`: the logging threshold chosen by the
    number of `-v` flags, and the `--on_exists` policy. */
module PutCatMain {
  import opened Common
  import opened PyStr

  /** The numeric levels of Python's `logging` module. */
  const DEBUG: nat := 10
  const INFO: nat := 20
  const WARNING: nat := 30
  const ERROR: nat := 40

  /** `configure_logging`: the level chosen for `verbose` repetitions of `-v`. */
  function LogLevel(verbose: nat): (r: nat)
    ensures r in {DEBUG, INFO, WARNING, ERROR}
    ensures verbose == 0 <==> r == ERROR
  {
    if verbose == 0 then ERROR
    else if verbose == 1 then WARNING
    else if verbose == 2 then INFO
    else DEBUG
  }

  /** Each `-v` lowers the threshold by one level of 10, from ERROR down to
      DEBUG, where it stays. */
  lemma LogLevelSteps(verbose: nat)
    ensures LogLevel(verbose) == if verbose < 3 then ERROR - 10 * verbose else DEBUG
  {
  }

  /** A record of `level` is emitted when it is at least the threshold. */
  predicate Emitted(verbose: nat, level: nat) {
    level >= LogLevel(verbose)
  }

  /** More `-v` flags never hide a record that fewer flags show. */
  lemma {:induction false} MoreVerboseShowsMore(v1: nat, v2: nat, level: nat)
    requires v1 <= v2 && Emitted(v1, level)
    ensures Emitted(v2, level)
  {
    LogLevelSteps(v1);
    LogLevelSteps(v2);
  }

  /** ERROR records are always emitted and DEBUG records only from `-vvv` on. */
  lemma EmittedBounds(verbose: nat)
    ensures Emitted(verbose, ERROR)
    ensures Emitted(verbose, DEBUG) <==> verbose >= 3
  {
  }

  /** The choices of `--on_exists`. */
  const ON_EXISTS_CHOICES: set<string> := {"fail", "keep", "drop"}

  /** `--on_exists`: the value is lowercased by `type=str.lower` and must then
      be one of the choices; otherwise argparse reports a usage error. */
  function ParseOnExists(arg: string): (r: Result<string>)
    ensures r.Success? <==> Lower(arg) in ON_EXISTS_CHOICES
    ensures r.Success? ==> r.value == Lower(arg)
    ensures r.Failure? ==> r.error == UsageError(Lower(arg))
  {
    var v := Lower(arg);
    if v in ON_EXISTS_CHOICES then Success(v) else Failure(UsageError(v))
  }

  /** The parsed policy is already lower case, so parsing it again gives it
      back: the policy the putter receives is a fixed point of the option's
      conversion. */
  lemma ParseOnExistsIdempotent(arg: string)
    requires ParseOnExists(arg).Success?
    ensures ParseOnExists(ParseOnExists(arg).value) == ParseOnExists(arg)
  {
    LowerIdempotent(arg);
  }

  /** Case does not matter: `DROP`, `Drop` and `drop` are the same policy. */
  lemma ParseOnExistsCaseInsensitive(a: string, b: string)
    requires Lower(a) == Lower(b)
    ensures ParseOnExists(a) == ParseOnExists(b)
  {
  }

  /** The default `fail` is accepted. */
  lemma DefaultOnExists()
    ensures ParseOnExists("fail") == Success("fail")
  {
    assert Lower("fail") == "fail";
  }
}
