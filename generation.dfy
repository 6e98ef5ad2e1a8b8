/**
 * Config generation (`generate_config` and `main` in config-builder.py).
 * The output directory `./out/` is an object holding whether it exists and
 * a map from file name (the device identifier) to file text.  jinja2's
 * loading and rendering of `./targetspec/<device>` with HOSTNAME=device is
 * the parameter `render`, which may fail.
 */
module Generation {
  import opened Wrappers
  import opened Arguments
  import opened DeviceSelection

  /**
   * Any exception jinja2 raises while loading or rendering a device's
   * template (missing file, syntax error, undefined variable, read error);
   * which kind it is does not change what the script does.
   */
  datatype TemplateError = TemplateError(device: string)

  /** The OS errors of `os.mkdir` and `open` that the model distinguishes. */
  datatype OsError = FileExistsError | FileNotFoundError

  /** The result of writing a sequence of devices: all done, or stopped at the first template error. */
  datatype WriteOutcome =
    | Finished(files: map<string, string>)
    | Stopped(files: map<string, string>, device: string, error: TemplateError)

  /**
   * The main loop on values: for each device in order, render it and
   * overwrite its file; the first template error ends the run, keeping the
   * files written before it.
   */
  function WriteAll(files: map<string, string>, devices: seq<string>,
                    render: string -> Result<string, TemplateError>): (r: WriteOutcome)
    ensures r.Stopped? ==> r.device in devices && render(r.device) == Err(r.error)
    decreases |devices|
  {
    if devices == [] then Finished(files)
    else
      match render(devices[0])
      case Err(e) => Stopped(files, devices[0], e)
      case Ok(text) => WriteAll(files[devices[0] := text], devices[1..], render)
  }

  /** The loop never removes a file and adds only files of selected devices. */
  lemma {:induction false} WriteAllKeys(files: map<string, string>, devices: seq<string>,
                                        render: string -> Result<string, TemplateError>)
    ensures forall k :: k in files ==> k in WriteAll(files, devices, render).files
    ensures forall k :: k in WriteAll(files, devices, render).files ==> k in files || k in devices
    decreases |devices|
  {
    if devices != [] && render(devices[0]).Ok? {
      var d := devices[0];
      WriteAllKeys(files[d := render(d).value], devices[1..], render);
      assert forall x :: x in devices[1..] ==> x in devices;
    }
  }

  /** Every device in `devices` renders without error. */
  predicate AllRender(devices: seq<string>, render: string -> Result<string, TemplateError>)
  {
    forall d :: d in devices ==> render(d).Ok?
  }

  /**
   * Reference definition of the directory after a complete run: every
   * listed device holds its rendered text, every other file is as before.
   */
  function Overlay(files: map<string, string>, devices: seq<string>,
                   render: string -> Result<string, TemplateError>): map<string, string>
    requires AllRender(devices, render)
  {
    map k | k in files.Keys + (set d | d in devices) :: if k in devices then render(k).value else files[k]
  }

  /** A run finishes exactly when every selected device renders. */
  lemma {:induction false} WriteAllFinishes(files: map<string, string>, devices: seq<string>,
                                            render: string -> Result<string, TemplateError>)
    ensures WriteAll(files, devices, render).Finished? <==> AllRender(devices, render)
    decreases |devices|
  {
    if devices != [] {
      var d := devices[0];
      assert forall x :: x in devices <==> x == d || x in devices[1..];
      if render(d).Ok? {
        WriteAllFinishes(files[d := render(d).value], devices[1..], render);
      }
    }
  }

  /**
   * A complete run leaves exactly the overlay: the updates folded over the
   * list in order equal the reference map, so a repeated device gets the
   * text of its last write and no other file is touched.
   */
  lemma {:induction false} WriteAllOverlay(files: map<string, string>, devices: seq<string>,
                                           render: string -> Result<string, TemplateError>)
    requires AllRender(devices, render)
    ensures WriteAll(files, devices, render) == Finished(Overlay(files, devices, render))
    decreases |devices|
  {
    if devices != [] {
      var d := devices[0];
      var rest := devices[1..];
      assert forall x :: x in devices <==> x == d || x in rest;
      var text := render(d).value;
      WriteAllOverlay(files[d := text], rest, render);
      var a := Overlay(files[d := text], rest, render);
      var b := Overlay(files, devices, render);
      assert a.Keys == b.Keys;
      forall k | k in a ensures a[k] == b[k] {
      }
      assert a == b;
    }
  }

  /**
   * A run stopped by a template error stopped at the first device that
   * fails to render; the directory then holds the overlay of the devices
   * before it, and nothing of the failing one or those after it.
   */
  lemma {:induction false} WriteAllStops(files: map<string, string>, devices: seq<string>,
                                         render: string -> Result<string, TemplateError>) returns (i: nat)
    requires WriteAll(files, devices, render).Stopped?
    ensures i < |devices| && render(devices[i]).Err?
    ensures AllRender(devices[..i], render)
    ensures WriteAll(files, devices, render)
         == Stopped(Overlay(files, devices[..i], render), devices[i], render(devices[i]).error)
    decreases |devices|
  {
    var d := devices[0];
    if render(d).Err? {
      assert devices[..0] == [];
      assert Overlay(files, [], render) == files;
      i := 0;
    } else {
      var rest := devices[1..];
      var text := render(d).value;
      var j := WriteAllStops(files[d := text], rest, render);
      i := j + 1;
      assert devices[..i] == [d] + rest[..j];
      assert forall x :: x in devices[..i] <==> x == d || x in rest[..j];
      WriteAllOverlay(files[d := text], rest[..j], render);
      WriteAllOverlay(files, devices[..i], render);
      assert WriteAll(files, devices[..i], render) == WriteAll(files[d := text], rest[..j], render) by {
        assert devices[..i][1..] == rest[..j];
      }
      assert devices[i] == rest[j];
    }
  }

  /** Running the same selection again on its own output changes nothing. */
  lemma RerunChangesNothing(files: map<string, string>, devices: seq<string>,
                            render: string -> Result<string, TemplateError>)
    requires AllRender(devices, render)
    ensures WriteAll(Overlay(files, devices, render), devices, render)
         == Finished(Overlay(files, devices, render))
  {
    var once := Overlay(files, devices, render);
    WriteAllOverlay(once, devices, render);
    assert Overlay(once, devices, render) == once;
  }

  /**
   * Once a device's file holds its rendered text, writing the device again
   * anywhere later in the list changes nothing.
   */
  lemma {:induction false} RewriteIsNoOp(files: map<string, string>, mid: seq<string>, d: string, post: seq<string>,
                                         render: string -> Result<string, TemplateError>)
    requires render(d).Ok? && d in files && files[d] == render(d).value
    ensures WriteAll(files, mid + [d] + post, render) == WriteAll(files, mid + post, render)
    decreases |mid|
  {
    if mid == [] {
      assert mid + [d] + post == [d] + post && ([d] + post)[1..] == post;
      assert mid + post == post;
      assert files[d := render(d).value] == files;
    } else {
      var x := mid[0];
      assert (mid + [d] + post)[0] == x && (mid + post)[0] == x;
      assert (mid + [d] + post)[1..] == mid[1..] + [d] + post;
      assert (mid + post)[1..] == mid[1..] + post;
      if render(x).Ok? {
        RewriteIsNoOp(files[x := render(x).value], mid[1..], d, post, render);
      }
    }
  }

  /**
   * A device listed again after an earlier occurrence can be dropped from
   * the list without changing the outcome: its later write overwrites the
   * file with the same text, and a template error stops the run at the
   * earlier occurrence already.
   */
  lemma {:induction false} RepeatedDeviceOverwrites(files: map<string, string>, pre: seq<string>, d: string,
                                                    post: seq<string>, render: string -> Result<string, TemplateError>)
    requires d in pre
    ensures WriteAll(files, pre + [d] + post, render) == WriteAll(files, pre + post, render)
    decreases |pre|
  {
    var x := pre[0];
    assert (pre + [d] + post)[0] == x && (pre + post)[0] == x;
    assert (pre + [d] + post)[1..] == pre[1..] + [d] + post;
    assert (pre + post)[1..] == pre[1..] + post;
    if render(x).Ok? {
      var next := files[x := render(x).value];
      if x == d {
        RewriteIsNoOp(next, pre[1..], d, post, render);
      } else {
        assert d in pre[1..];
        RepeatedDeviceOverwrites(next, pre[1..], d, post, render);
      }
    }
  }

  /** The outcome of `main`: exit from validation, normal end, or an uncaught template error. */
  datatype RunStatus =
    | Exited(code: int, output: string)
    | Completed
    | Crashed(device: string, error: TemplateError)

  /** The output directory `./out/`. */
  class OutputDir {
    var present: bool
    var files: map<string, string>

    /**
     * A directory that does not exist holds no files.  No postcondition
     * depends on it; it only rules out states the file system cannot be in.
     */
    ghost predicate Valid()
      reads this
    {
      !present ==> files == map[]
    }

    constructor (present0: bool, files0: map<string, string>)
      requires !present0 ==> files0 == map[]
      ensures Valid() && present == present0 && files == files0
    {
      present := present0;
      files := files0;
    }

    /** `os.mkdir("out")`: creates the directory, raising FileExistsError when it is there already. */
    method MakeDir() returns (r: Result<(), OsError>)
      requires Valid()
      modifies this
      ensures Valid()
      ensures r == if old(present) then Err(FileExistsError) else Ok(())
      ensures present && files == old(files)
    {
      if present {
        return Err(FileExistsError);
      }
      present := true;
      return Ok(());
    }

    /**
     * `write_config_file(config, device)`: opens `./out/<device>` for
     * writing, replacing any earlier text; raises FileNotFoundError when
     * the directory is missing.
     */
    method WriteConfigFile(config: string, device: string) returns (r: Result<(), OsError>)
      requires Valid()
      modifies this
      ensures Valid() && present == old(present)
      ensures r == if old(present) then Ok(()) else Err(FileNotFoundError)
      ensures files == if old(present) then old(files)[device := config] else old(files)
    {
      if !present {
        return Err(FileNotFoundError);
      }
      files := files[device := config];
      return Ok(());
    }

    /**
     * `generate_config(device)`: render the device's template, then create
     * the directory and write; when creating it raises, the handler writes
     * the same text, so both paths end in the same single write.  A
     * template error propagates before anything is touched.
     */
    method GenerateConfig(device: string, render: string -> Result<string, TemplateError>)
      returns (r: Result<(), TemplateError>)
      requires Valid()
      modifies this
      ensures Valid()
      ensures r == if render(device).Ok? then Ok(()) else Err(render(device).error)
      ensures render(device).Ok? ==> present && files == old(files)[device := render(device).value]
      ensures render(device).Err? ==> present == old(present) && files == old(files)
    {
      var rendered := render(device);
      if rendered.Err? {
        return Err(rendered.error);
      }
      var config := rendered.value;
      var written: Result<(), OsError> := Err(FileNotFoundError);
      var made := MakeDir();
      if made.Ok? {
        written := WriteConfigFile(config, device);
      }
      if made.Err? || written.Err? {
        written := WriteConfigFile(config, device);
      }
      assert written.Ok?;
      return Ok(());
    }

    /**
     * `main()` after argument parsing: validate, select the devices from
     * the template directory listing `listing`, then generate each one in
     * list order.  The final directory is the fold of the per-device writes
     * over the list, up to the first template error.
     */
    method Run(args: Args, listing: seq<string>, rematch: (string, string) -> bool,
               render: string -> Result<string, TemplateError>) returns (status: RunStatus)
      requires Valid()
      modifies this
      ensures Valid()
      ensures !Truthy(args.devices) && !Truthy(args.pattern) ==>
        status == Exited(1, NoDeviceLine) && files == old(files) && present == old(present)
      ensures Truthy(args.devices) || Truthy(args.pattern) ==>
        var devices := DeviceList(args, listing, rematch).value;
        && present == (old(present) || (|devices| > 0 && render(devices[0]).Ok?))
        && match WriteAll(old(files), devices, render)
           case Finished(m) => status == Completed && files == m
           case Stopped(m, d, e) => status == Crashed(d, e) && files == m
    {
      var validation := ArgsValidator(args);
      if validation.Exit? {
        return Exited(validation.code, validation.output);
      }
      var selected := GetDeviceList(args, listing, rematch);
      var deviceList := selected.value;
      for i := 0 to |deviceList|
        invariant Valid()
        invariant WriteAll(old(files), deviceList, render) == WriteAll(files, deviceList[i..], render)
        invariant present == (old(present) || i > 0)
        invariant i > 0 ==> render(deviceList[0]).Ok?
      {
        var device := deviceList[i];
        var generated := GenerateConfig(device, render);
        if generated.Err? {
          return Crashed(device, generated.error);
        }
        assert deviceList[i..][1..] == deviceList[i + 1..];
      }
      return Completed;
    }
  }
}
