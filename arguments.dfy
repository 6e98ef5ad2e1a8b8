/**
 * The parsed command line and its validation (`args_validator` in
 * config-builder.py).  Parsing itself is left out: the two options arrive
 * as optional strings.
 */
module Arguments {
  import opened Wrappers
  import Colors

  /** `--devices` and `--pattern`, each None when not given. */
  datatype Args = Args(devices: Option<string>, pattern: Option<string>)

  /** Python truthiness of an optional string: given and not empty. */
  predicate Truthy(o: Option<string>)
  {
    o.Some? && o.value != ""
  }

  const NoDeviceMessage: string :=
    "[FAIL] - No device specified with -d or regex pattern specified with -p"

  /** The line validation prints before exiting. */
  const NoDeviceLine: string :=
    Colors.Codes["ERROR"] + NoDeviceMessage + Colors.Codes["ENDC"] + "\n"

  /** The outcome of validation: return normally, or exit with a code after printing. */
  datatype Validation = Pass | Exit(code: int, output: string)

  /**
   * `args_validator(args)`: exit with code 1, after printing the error line
   * in the ERROR colour, exactly when neither option is truthy; otherwise
   * return and print nothing.
   */
  method ArgsValidator(args: Args) returns (r: Validation)
    ensures r.Exit? <==> !Truthy(args.devices) && !Truthy(args.pattern)
    ensures r.Exit? ==> r.code == 1
    ensures r.Exit? ==> r.output == NoDeviceLine
  {
    var validationFailed := false;
    var output := "";
    if !Truthy(args.devices) && !Truthy(args.pattern) {
      var printed := Colors.PrintInColor("ERROR", NoDeviceMessage);
      output := printed.value;
      validationFailed := true;
    }
    if validationFailed {
      return Exit(1, output);
    }
    return Pass;
  }
}
