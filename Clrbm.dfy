/**
 * The command line of the clrbm tool (trunk/source/VisualRBM/clrbm/clrbm.cpp):
 * handle_arguments, which collects the flag values, answers -defaults, checks
 * the required flags and loads the files they name, and the dispatch in
 * main. Loading an IDX file, an RBM file and reading the parameter file are
 * outside the model: their outcomes are the fields of Environment.
 * sscanf("%u") and sscanf("%f") are the `scan` and `scanReal` parameters.
 * The OpenGL training loop that follows a successful parse is not modelled.
 */
module Clrbm {
  import opened Bytes
  import opened Wrappers
  import opened FlagTable
  import opened ParameterFile

  const TRAINING_DATA: nat := 0
  const VALIDATION_DATA: nat := 1
  const PARAMETERS: nat := 2
  const IMPORT: nat := 3
  const EXPORT: nat := 4
  const QUIET: nat := 5
  const CREATE_DEFAULTS: nat := 6
  const COUNT: nat := 7

  /** The flag strings, in the order of the Arguments enumeration. */
  function Flag(j: nat): string
    requires j < COUNT
  {
    match j
    case 0 => "-train="
    case 1 => "-valid="
    case 2 => "-params="
    case 3 => "-import="
    case 4 => "-export="
    case 5 => "-quiet"
    case _ => "-defaults"
  }

  function Flags(): (r: seq<string>)
    ensures |r| == COUNT && forall j :: 0 <= j < COUNT ==> r[j] == Flag(j)
  {
    seq(COUNT, j requires 0 <= j < COUNT => Flag(j))
  }

  /**
   * What the files named on the command line give: whether IDX::Load
   * succeeds on a name, whether RBM::Load does, and the contents of the
   * parameter file (None: it does not open).
   */
  datatype Environment = Environment(
    idxLoads: string -> bool, rbmLoads: string -> bool, read: string -> Option<seq<char>>)

  /**
   * The state handle_arguments leaves for main: the parameters, whether
   * validation data is present, whether an RBM was imported, the export
   * file name and quiet mode.
   */
  datatype Settings = Settings(parameters: Parameters, validation: bool, imported: bool, exportFile: string, quiet: bool)

  datatype Handled = Success(settings: Settings) | Error | CreateDefaults

  /**
   * The steps after the flag loop, on the collected values v. With
   * corrected false this is the code as written, which loads the validation
   * file but goes on whether or not the load succeeded, and reads the
   * parameter file's lines as its loop does; with corrected true a
   * validation file that does not load is an error and the unterminated
   * last line of the parameter file is kept.
   */
  function Checks(v: seq<Option<string>>, env: Environment, scan: string -> Option<u32>, scanReal: string -> Option<real>,
                  corrected: bool): (r: Handled)
    requires |v| == COUNT
    ensures v[CREATE_DEFAULTS].Some? ==> r == CreateDefaults
    ensures r.CreateDefaults? ==> v[CREATE_DEFAULTS].Some?
    ensures r.Success? <==>
      v[CREATE_DEFAULTS].None? && v[TRAINING_DATA].Some? && v[PARAMETERS].Some? && v[EXPORT].Some? &&
      env.idxLoads(v[TRAINING_DATA].value) &&
      (corrected && v[VALIDATION_DATA].Some? ==> env.idxLoads(v[VALIDATION_DATA].value)) &&
      FileParameters(env.read(v[PARAMETERS].value), scan, scanReal, corrected).Some? &&
      (v[IMPORT].Some? ==> env.rbmLoads(v[IMPORT].value))
    ensures r.Success? ==> v[PARAMETERS].Some? && v[EXPORT].Some?
    ensures r.Success? ==> r.settings == Settings(FileParameters(env.read(v[PARAMETERS].value), scan, scanReal, corrected).value,
        v[VALIDATION_DATA].Some? && env.idxLoads(v[VALIDATION_DATA].value),
        v[IMPORT].Some?, v[EXPORT].value, v[QUIET].Some?)
  {
    if v[CREATE_DEFAULTS].Some? then CreateDefaults
    else if v[TRAINING_DATA].None? || v[PARAMETERS].None? || v[EXPORT].None? then Error
    else if !env.idxLoads(v[TRAINING_DATA].value) then Error
    else
      var validation := v[VALIDATION_DATA].Some? && env.idxLoads(v[VALIDATION_DATA].value);
      if corrected && v[VALIDATION_DATA].Some? && !validation then Error
      else
        var parameters := FileParameters(env.read(v[PARAMETERS].value), scan, scanReal, corrected);
        if parameters.None? then Error
        else if v[IMPORT].Some? && !env.rbmLoads(v[IMPORT].value) then Error
        else Success(Settings(parameters.value, validation, v[IMPORT].Some?, v[EXPORT].value, v[QUIET].Some?))
  }

  /** handle_arguments: an unknown or repeated flag is an error, otherwise the checks decide. */
  function Handle(args: seq<string>, env: Environment, scan: string -> Option<u32>, scanReal: string -> Option<real>,
                  corrected: bool): Handled
  {
    match Collect(Flags(), true, args)
    case Values(v) => Checks(v, env, scan, scanReal, corrected)
    case _ => Error
  }

  /** handle_arguments with the validation load checked and the parameter file's last line kept. */
  method HandleArguments(args: seq<string>, env: Environment, scan: string -> Option<u32>, scanReal: string -> Option<real>)
    returns (r: Handled)
    ensures r == Handle(args, env, scan, scanReal, true)
  {
    var collected := CollectFlags(Flags(), args);
    if !collected.Values? {
      return Error;
    }
    var v := collected.values;
    if v[CREATE_DEFAULTS].Some? {
      return CreateDefaults;
    }
    if v[TRAINING_DATA].None? || v[PARAMETERS].None? || v[EXPORT].None? {
      return Error;
    }
    if !env.idxLoads(v[TRAINING_DATA].value) {
      return Error;
    }
    var validation := false;
    if v[VALIDATION_DATA].Some? {
      validation := env.idxLoads(v[VALIDATION_DATA].value);
      if !validation {
        return Error;
      }
    }
    var parameters := LoadParameters(env.read(v[PARAMETERS].value), scan, scanReal, true);
    if parameters.None? {
      return Error;
    }
    if v[IMPORT].Some? && !env.rbmLoads(v[IMPORT].value) {
      return Error;
    }
    r := Success(Settings(parameters.value, validation, v[IMPORT].Some?, v[EXPORT].value, v[QUIET].Some?));
  }

  /**
   * An argument that matches no flag, or a flag given twice, is an error;
   * otherwise -defaults wins over every other check.
   */
  lemma FlagsDecideFirst(args: seq<string>, env: Environment, scan: string -> Option<u32>, scanReal: string -> Option<real>, check: bool)
    ensures !DistinctFlags(Flags(), true, args, |args|) ==> Handle(args, env, scan, scanReal, check) == Error
    ensures DistinctFlags(Flags(), true, args, |args|) && Given(Flags(), args, CREATE_DEFAULTS) ==>
      Handle(args, env, scan, scanReal, check) == CreateDefaults
    ensures Handle(args, env, scan, scanReal, check) == CreateDefaults ==> Given(Flags(), args, CREATE_DEFAULTS)
  {
    CollectValues(Flags(), true, args);
  }

  /**
   * A successful run was given -train=, -params= and -export=, and its
   * export name is the rest of the -export= argument; the parameters meet
   * every range check.
   */
  lemma SuccessHasRequired(args: seq<string>, env: Environment, scan: string -> Option<u32>, scanReal: string -> Option<real>, check: bool)
    requires Handle(args, env, scan, scanReal, check).Success?
    ensures Given(Flags(), args, TRAINING_DATA) && Given(Flags(), args, PARAMETERS) && Given(Flags(), args, EXPORT)
    ensures !Given(Flags(), args, CREATE_DEFAULTS)
    ensures forall i :: 0 <= i < |args| && FlagOf(Flags(), args[i]) == Some(EXPORT) ==>
      Handle(args, env, scan, scanReal, check).settings.exportFile == Suffix(Flags(), args[i])
    ensures var p := Handle(args, env, scan, scanReal, check).settings.parameters;
      p.hiddenUnits > 0 && p.learningRate > 0.0 && p.minibatchSize > 0 && p.epochs > 0 && p.printInterval > 0
  {
    CollectValues(Flags(), true, args);
    var v := Collect(Flags(), true, args).values;
    var q := FileParameters(env.read(v[PARAMETERS].value), scan, scanReal, check);
    var contents := env.read(v[PARAMETERS].value).value;
    match Collect(Keys(), false, FileLines(contents, check))
    case Values(w) =>
      assert q == Settle(w, scan, scanReal);
  }

  /** With the load checked, a successful run given -valid= has its validation data. */
  lemma ValidationPresent(args: seq<string>, env: Environment, scan: string -> Option<u32>, scanReal: string -> Option<real>)
    requires Handle(args, env, scan, scanReal, true).Success?
    ensures Handle(args, env, scan, scanReal, true).settings.validation <==> Given(Flags(), args, VALIDATION_DATA)
  {
    CollectValues(Flags(), true, args);
  }

  /**
   * As written, a -valid= file that does not load changes nothing: the run
   * goes on exactly as if no -valid= had been given. With the load checked
   * the run is an error unless -defaults was given.
   */
  lemma ValidationLoadUnchecked(v: seq<Option<string>>, env: Environment, scan: string -> Option<u32>, scanReal: string -> Option<real>)
    requires |v| == COUNT && v[VALIDATION_DATA].Some? && !env.idxLoads(v[VALIDATION_DATA].value)
    ensures Checks(v, env, scan, scanReal, false) == Checks(v[VALIDATION_DATA := None], env, scan, scanReal, false)
    ensures Checks(v, env, scan, scanReal, true) == (if v[CREATE_DEFAULTS].Some? then CreateDefaults else Error)
  {
  }

  /** How clrbm ends: training with the settings, the defaults file written, or the usage text. */
  datatype Exit = Trained(settings: Settings) | WroteDefaults(file: seq<char>) | Help

  /**
   * main: no arguments print the usage text; otherwise handle_arguments
   * decides, and -defaults writes one "key=value" line per parameter. main
   * as written is Program(..., false), which ignores a failed validation
   * load and loses an unterminated parameter line ending in a dropped
   * character; Program(..., true) checks the load and keeps the line.
   */
  function Program(args: seq<string>, env: Environment, scan: string -> Option<u32>, scanReal: string -> Option<real>,
                   corrected: bool): (r: Exit)
    ensures args == [] ==> r == Help
    ensures r.WroteDefaults? ==> r.file == DefaultsFile()
    ensures r.Trained? <==> args != [] && Handle(args, env, scan, scanReal, corrected).Success?
  {
    if args == [] then Help
    else match Handle(args, env, scan, scanReal, corrected)
      case Success(settings) => Trained(settings)
      case CreateDefaults => WroteDefaults(DefaultsFile())
      case Error => Help
  }

  /**
   * main as written trains with a -valid= file that fails to load exactly
   * when it would train with no -valid= at all; with the load checked it
   * never trains on such arguments.
   */
  lemma MainIgnoresValidation(args: seq<string>, env: Environment, scan: string -> Option<u32>, scanReal: string -> Option<real>)
    requires args != [] && Collect(Flags(), true, args).Values?
    requires var v := Collect(Flags(), true, args).values;
      |v| == COUNT && v[VALIDATION_DATA].Some? && !env.idxLoads(v[VALIDATION_DATA].value)
    ensures var v := Collect(Flags(), true, args).values;
      Program(args, env, scan, scanReal, false).Trained? <==> Checks(v[VALIDATION_DATA := None], env, scan, scanReal, false).Success?
    ensures !Program(args, env, scan, scanReal, true).Trained?
  {
    ValidationLoadUnchecked(Collect(Flags(), true, args).values, env, scan, scanReal);
  }

  /**
   * The file written for -defaults loads back with every key at its default
   * text, whichever way its lines are read.
   */
  lemma WrittenDefaultsReload(args: seq<string>, env: Environment, scan: string -> Option<u32>, scanReal: string -> Option<real>,
                               corrected: bool, reading: bool)
    requires Program(args, env, scan, scanReal, corrected).WroteDefaults?
    ensures Collect(Keys(), false, FileLines(Program(args, env, scan, scanReal, corrected).file, reading)) == Values(DefaultValues())
  {
    DefaultsReload(reading);
  }
}
