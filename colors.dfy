/**
 * Status-message formatting of config-builder.py (`print_in_color`): a fixed
 * table of nine escape codes and the line written to standard output.  The
 * terminal itself is left out; the model returns the text that would be
 * written, or the KeyError the lookup raises.
 */
module Colors {
  import opened Wrappers

  /** The escape character '\033'. */
  const ESC: char := 27 as char

  /** The code table, key for key as in the script. */
  const Codes: map<string, string> := map[
    "ERROR" := [ESC] + "[95m",
    "FAILED" := [ESC] + "[41;1m",
    "OKBLUE" := [ESC] + "[94m",
    "HEADER" := [ESC] + "[46;1m",
    "OKGREEN" := [ESC] + "[92m",
    "LINK" := [ESC] + "[32;4m",
    "WARNING" := [ESC] + "[93m",
    "ENDC" := [ESC] + "[0m",
    "UNDERLINE" := [ESC] + "[4m"
  ]

  /** Python's KeyError, carrying the missing key. */
  datatype KeyError = KeyError(key: string)

  /** `c.upper()` for one character, on the ASCII range. */
  function UpperChar(c: char): char
  {
    if 'a' <= c <= 'z' then (c as int - 32) as char else c
  }

  /**
   * `s.upper()`, character by character on the ASCII range: same length, no
   * lower-case letter left, and a string without lower-case letters is
   * returned unchanged.
   */
  function Upper(s: string): (r: string)
    ensures |r| == |s|
    ensures NoLowerCase(r)
    ensures NoLowerCase(s) ==> r == s
    ensures forall i :: 0 <= i < |s| && !('a' <= s[i] <= 'z') ==> r[i] == s[i]
  {
    seq(|s|, i requires 0 <= i < |s| => UpperChar(s[i]))
  }

  /** No character of `s` is an ASCII lower-case letter. */
  predicate NoLowerCase(s: string)
  {
    forall i :: 0 <= i < |s| ==> !('a' <= s[i] <= 'z')
  }

  /** Every key of the table is already upper case. */
  lemma KeysAreUpperCase(status: string)
    requires status in Codes
    ensures Upper(status) == status
  {
    assert NoLowerCase(status);
  }

  /**
   * `print_in_color(status, message)` as written: the default argument
   * `codes[status]` of `codes.get` is evaluated before the call, so a status
   * that is not an exact key raises KeyError even when its upper-case form
   * is a key.  On success the written text is the code, the message, the
   * reset code and a newline.
   */
  function PrintInColor(status: string, message: string): (r: Result<string, KeyError>)
    ensures r.Err? <==> status !in Codes
    ensures r.Err? ==> r.error == KeyError(status)
    ensures r.Ok? ==> r.value == Codes[status] + message + Codes["ENDC"] + "\n"
  {
    if status !in Codes then Err(KeyError(status))
    else
      var upper := Upper(status);
      var code := if upper in Codes then Codes[upper] else Codes[status];
      KeysAreUpperCase(status);
      Ok(code + message + Codes["ENDC"] + "\n")
  }

  /**
   * The lookup the script evidently intends: the upper-cased status selects
   * the code, raising only when it is not in the table.
   */
  function PrintInColorIgnoringCase(status: string, message: string): (r: Result<string, KeyError>)
    ensures r.Err? <==> Upper(status) !in Codes
    ensures r.Err? ==> r.error == KeyError(status)
    ensures r.Ok? ==> r.value == Codes[Upper(status)] + message + Codes["ENDC"] + "\n"
  {
    var upper := Upper(status);
    if upper in Codes then Ok(Codes[upper] + message + Codes["ENDC"] + "\n")
    else Err(KeyError(status))
  }

  /** On every exact key the two lookups write the same text. */
  lemma IgnoringCaseAgreesOnKeys(status: string, message: string)
    requires status in Codes
    ensures PrintInColorIgnoringCase(status, message) == PrintInColor(status, message)
    ensures PrintInColor(status, message).Ok?
  {
    KeysAreUpperCase(status);
  }

  /** "error" upper-cases to a key, yet the script raises KeyError for it. */
  lemma LowerCaseStatusRaises(message: string)
    ensures Upper("error") in Codes
    ensures PrintInColor("error", message) == Err(KeyError("error"))
    ensures PrintInColorIgnoringCase("error", message) == PrintInColor("ERROR", message)
  {
    assert Upper("error") == "ERROR";
  }

}
