/** rpk's ballast-file command (src/go/rpk/pkg/tuners/executors/commands/
  * create_sized_file.go): create a file of a given size with fallocate,
  * refusing to touch a file that already exists, or render the same as a
  * shell script. */
module CreateSizedFile {
  import opened Common

  /** The message of `errBallastExists`. */
  function ErrBallastExists(path: string): (msg: string)
    ensures HasPrefix(msg, "file '" + path + "'")
  {
    var msg := "file '" + path + "'" +
      " already exists. If you're sure you want to replace it, remove it first and then run this tuner again.";
    assert msg[..|"file '" + path + "'"|] == "file '" + path + "'";
    msg
  }

  /** What `os.Stat` on the path reported. */
  datatype StatOutcome = Exists | NotExist | StatFailed(err: string)

  /** The file system calls' outcomes: open, fallocate and fsync each
    * report an error or none. */
  datatype Calls = Calls(stat: StatOutcome, openErr: Option<string>,
                         fallocateErr: Option<string>, syncErr: Option<string>)

  /** What `Execute` returns, and whether it created (opened with O_CREATE)
    * the file and asked for its space. */
  datatype Execution = Execution(err: Option<string>, fileOpened: bool, spaceAllocated: bool)

  /** `Execute`: an existing file is never opened; otherwise the file is
    * opened, allocated and synced, stopping at the first error. */
  function Execute(path: string, sizeBytes: int, calls: Calls): (r: Execution)
    ensures calls.stat != NotExist ==> !r.fileOpened && r.err.Some?
    ensures calls.stat == Exists ==> r.err == Some(ErrBallastExists(path))
    ensures calls.stat.StatFailed? ==> r.err == Some(calls.stat.err)
    ensures r.fileOpened <==> calls.stat == NotExist && calls.openErr.None?
    ensures r.spaceAllocated <==> r.fileOpened && calls.fallocateErr.None?
    ensures r.err.None? <==> r.spaceAllocated && calls.syncErr.None?
  {
    match calls.stat
    case Exists => Execution(Some(ErrBallastExists(path)), false, false)
    case StatFailed(e) => Execution(Some(e), false, false)
    case NotExist =>
      if calls.openErr.Some? then Execution(calls.openErr, false, false)
      else if calls.fallocateErr.Some? then
        Execution(Some("couldn't allocate the requested size while" +
          " creating the ballast file at '" + path + "': " + calls.fallocateErr.value), true, false)
      else if calls.syncErr.Some? then
        Execution(Some("couldn't sync the ballast file at " + path + ": " + calls.syncErr.value), true, true)
      else Execution(None, true, true)
  }

  /** `RenderScript`: the same command as a shell script that echoes the
    * existing-file message instead of allocating over an existing file. */
  function RenderScript(path: string, sizeBytes: int): (script: string)
    ensures HasPrefix(script, "if test -f \"" + path + "\"; then\n  echo \"" + ErrBallastExists(path) + "\"\n")
    ensures var tail := "else\n  fallocate -l " + IntToString(sizeBytes) + " " + path + "\nfi\n";
      |tail| <= |script| && script[|script| - |tail|..] == tail
  {
    var head := "if test -f \"" + path + "\"; then\n  echo \"" + ErrBallastExists(path) + "\"\n";
    var tail := "else\n  fallocate -l " + IntToString(sizeBytes) + " " + path + "\nfi\n";
    var script := head + tail;
    assert script[..|head|] == head;
    assert script[|script| - |tail|..] == tail;
    script
  }

  /** The script and `Execute` refuse an existing file alike: the script
    * echoes exactly the error `Execute` returns for it. */
  lemma ScriptEchoesExecuteError(path: string, sizeBytes: int, calls: Calls)
    requires calls.stat == Exists
    ensures Execute(path, sizeBytes, calls).err.Some?
    ensures HasPrefix(RenderScript(path, sizeBytes),
      "if test -f \"" + path + "\"; then\n  echo \"" + Execute(path, sizeBytes, calls).err.value + "\"\n")
  {
  }

  /** The script rendered for a one-byte file at a made-up path (the
    * expected text is cut into short pieces; the long message is one). */
  lemma RenderScriptExample()
    ensures RenderScript("/some/made/up/filepath.txt", 1) ==
      ("if test -f \"/some/made/up/filepath.txt\"; then\n" +
       "  echo \"" + "file '/some/made/up/filepath.txt'") +
      " already exists. If you're sure you want to replace it, remove it first and then run this tuner again." +
      ("\"\n" +
       "else\n" +
       "  fallocate -l 1 " + "/some/made/up/filepath.txt\n" +
       "fi\n")
  {
    var p := "/some/made/up/filepath.txt";
    RenderScriptShape(p, 1);
    ExampleOpening(p);
    ExampleClosing(p);
  }

  /** The script around the message, cut where the example cuts it. */
  lemma RenderScriptShape(p: string, n: int)
    ensures RenderScript(p, n) ==
      ("if test -f \"" + p + "\"; then\n  echo \"" + ("file '" + p + "'")) +
      " already exists. If you're sure you want to replace it, remove it first and then run this tuner again." +
      ("\"\n" + ("else\n  fallocate -l " + IntToString(n) + " " + p + "\nfi\n"))
  {
  }

  /** The example's text up to the message. */
  lemma ExampleOpening(p: string)
    requires p == "/some/made/up/filepath.txt"
    ensures "if test -f \"" + p + "\"; then\n  echo \"" + ("file '" + p + "'") ==
      "if test -f \"/some/made/up/filepath.txt\"; then\n" + "  echo \"" + "file '/some/made/up/filepath.txt'"
  {
    var opening := "if test -f \"" + p;
    ExampleTest(p);
    assert opening + "\"; then\n  echo \"" == "if test -f \"/some/made/up/filepath.txt\"; then\n" + "  echo \"";
    ExampleQuoted(p);
  }

  /** The example's `test -f` head. */
  lemma ExampleTest(p: string)
    requires p == "/some/made/up/filepath.txt"
    ensures "if test -f \"" + p == "if test -f \"/some/made/up/filepath.txt"
  {
  }

  /** The example's quoted path in the message. */
  lemma ExampleQuoted(p: string)
    requires p == "/some/made/up/filepath.txt"
    ensures "file '" + p + "'" == "file '/some/made/up/filepath.txt'"
  {
  }

  /** The example's text after the message. */
  lemma ExampleClosing(p: string)
    requires p == "/some/made/up/filepath.txt"
    ensures "\"\n" + ("else\n  fallocate -l " + IntToString(1) + " " + p + "\nfi\n") ==
      "\"\n" + "else\n" + "  fallocate -l 1 " + "/some/made/up/filepath.txt\n" + "fi\n"
  {
    assert IntToString(1) == "1";
  }
}
