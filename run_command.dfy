/**
  The `run` command: the flags it passes to the `SnB_run.sh` script (`a` to
  loop over every defect folder, `v` for verbose output), the job-name option
  of the scheduler, and the command line it hands to the shell.
 */
module RunCommand {
  import opened Python
  import DefectNames
  import DefectDirs

  /**
    What `run` promises of its flags: empty exactly when running inside a
    defect folder without `--verbose`; otherwise a `-` followed by one
    letter per option, `a` (not inside a defect folder) before `v` (verbose).
   */
  predicate FlagsMean(flags: string, inDefectDir: bool, verbose: bool) {
    && (flags == "" <==> inDefectDir && !verbose)
    && (flags != "" ==> flags[0] == '-' && |flags| == 1 + (if inDefectDir then 0 else 1) + (if verbose then 1 else 0))
    && ('a' in flags <==> !inDefectDir)
    && ('v' in flags <==> verbose)
    && (forall i, j :: 0 <= i < j < |flags| && flags[j] == 'a' ==> flags[i] == '-')
  }

  /** The optional flags of `SnB_run.sh`, built as `run` builds them. */
  method RunFlags(inDefectDir: bool, verbose: bool) returns (flags: string)
    ensures FlagsMean(flags, inDefectDir, verbose)
  {
    flags := "-";
    if !inDefectDir {
      flags := flags + "a";
    }
    if verbose {
      flags := flags + "v";
    }
    if flags == "-" {
      flags := "";
    }
  }

  /** The four flag strings, one for each combination of the two tests. */
  function FlagString(inDefectDir: bool, verbose: bool): string {
    if inDefectDir && !verbose then "" else "-" + (if inDefectDir then "" else "a") + (if verbose then "v" else "")
  }

  /** The promise above pins the flags down: exactly `""`, `"-a"`, `"-v"` or `"-av"`. */
  lemma FlagsMeanExactly(flags: string, inDefectDir: bool, verbose: bool)
    ensures FlagsMean(flags, inDefectDir, verbose) <==> flags == FlagString(inDefectDir, verbose)
  {
    if FlagsMean(flags, inDefectDir, verbose) && flags != "" {
      if !inDefectDir {
        var j :| 0 <= j < |flags| && flags[j] == 'a';
        assert forall i :: 0 <= i < j ==> flags[i] == '-';
        if verbose {
          var k :| 0 <= k < |flags| && flags[k] == 'v';
          assert flags == "-av";
        } else {
          assert flags == "-a";
        }
      } else {
        var j :| 0 <= j < |flags| && flags[j] == 'v';
        assert flags == "-v";
      }
    }
  }

  /** The scheduler's job-name option: the user's, else `-J` for `sbatch` and `-N` for anything else. */
  function JobNameOption(submitCommand: string, jobNameOption: Option<string>): (opt: string)
    ensures jobNameOption.Some? ==> opt == jobNameOption.value
    ensures jobNameOption.None? && submitCommand == "sbatch" ==> opt == "-J"
    ensures jobNameOption.None? && submitCommand != "sbatch" ==> opt == "-N"
  {
    match jobNameOption
    case Some(o) => o
    case None => if submitCommand == "sbatch" then "-J" else "-N"
  }

  /** The shell command `run` issues; `scriptDir` is the directory of the installed package. */
  function CommandLine(scriptDir: string, flags: string, submitCommand: string, jobScript: string, jobNameOption: string): string {
    scriptDir + "/SnB_run.sh " + flags + " " + submitCommand + " " + jobScript + " " + jobNameOption
  }

  /** The body of `run`, given the listing of the working directory. */
  method Run(cwd: seq<DefectDirs.Entry>, format: string -> DefectNames.FormatResult, scriptDir: string,
             submitCommand: string, jobScript: string, jobNameOption: Option<string>, verbose: bool)
    returns (command: string)
    ensures command == CommandLine(scriptDir, FlagString(DefectDirs.HasDistortionDir(cwd), verbose),
                                   submitCommand, jobScript, JobNameOption(submitCommand, jobNameOption))
  {
    var inDefectDir, _ := DefectDirs.RunningInDefectDir(cwd, format);
    var flags := RunFlags(inDefectDir, verbose);
    FlagsMeanExactly(flags, inDefectDir, verbose);
    var opt := JobNameOption(submitCommand, jobNameOption);
    command := CommandLine(scriptDir, flags, submitCommand, jobScript, opt);
  }

  // ---------------------------------------------------------------------------
  // How the shell splits the command line into words

  predicate NoSpace(s: string) {
    forall i :: 0 <= i < |s| ==> s[i] != ' '
  }

  /** The length of the word `s` starts with. */
  function WordLength(s: string): (n: nat)
    ensures n <= |s| && NoSpace(s[..n])
    ensures n < |s| ==> s[n] == ' '
  {
    if s == [] || s[0] == ' ' then 0
    else
      var n := WordLength(s[1..]);
      assert s[..n + 1] == [s[0]] + s[1..][..n];
      n + 1
  }

  /** The words of `s`: its maximal runs of non-blank characters, in order (unquoted shell splitting on blanks). */
  function Words(s: string): seq<string>
    decreases |s|
  {
    if s == [] then []
    else if s[0] == ' ' then Words(s[1..])
    else
      var n := WordLength(s);
      assert n > 0 by { assert s[1..][..0] == []; }
      [s[..n]] + Words(s[n..])
  }

  lemma {:induction false} WordLengthOfWord(a: string, rest: string)
    requires NoSpace(a)
    requires rest == [] || rest[0] == ' '
    ensures WordLength(a + rest) == |a|
    decreases |a|
  {
    if a != [] {
      assert (a + rest)[1..] == a[1..] + rest;
      WordLengthOfWord(a[1..], rest);
    }
  }

  /** A blank-free word followed by a blank and more text splits off as the first word. */
  lemma WordsCons(a: string, b: string)
    requires a != [] && NoSpace(a)
    ensures Words(a + " " + b) == [a] + Words(b)
  {
    var sb := " " + b;
    var s := a + sb;
    assert s == a + " " + b;
    WordLengthOfWord(a, sb);
    assert s[0] == a[0] != ' ';
    assert Words(s) == [s[..|a|]] + Words(s[|a|..]);
    assert s[..|a|] == a;
    assert s[|a|..] == sb;
    WordsBlank(b);
  }

  lemma WordsSingle(a: string)
    requires a != [] && NoSpace(a)
    ensures Words(a) == [a]
  {
    WordLengthOfWord(a, []);
    assert a + [] == a;
    assert a[|a|..] == [];
  }

  lemma WordsBlank(b: string)
    ensures Words(" " + b) == Words(b)
  {
    assert (" " + b)[1..] == b;
  }

  lemma ScriptPathNoSpace(scriptDir: string)
    requires NoSpace(scriptDir)
    ensures NoSpace(scriptDir + "/SnB_run.sh")
  {
    var script := scriptDir + "/SnB_run.sh";
    forall i | 0 <= i < |script| ensures script[i] != ' ' {
      if i >= |scriptDir| {
        assert script[i] == "/SnB_run.sh"[i - |scriptDir|];
      }
    }
  }

  lemma LastArgumentsWords(submitCommand: string, jobScript: string, jobNameOption: string)
    requires submitCommand != [] && NoSpace(submitCommand)
    requires jobScript != [] && NoSpace(jobScript)
    requires jobNameOption != [] && NoSpace(jobNameOption)
    ensures Words(submitCommand + " " + jobScript + " " + jobNameOption) == [submitCommand, jobScript, jobNameOption]
  {
    WordsSingle(jobNameOption);
    WordsCons(jobScript, jobNameOption);
    assert submitCommand + " " + jobScript + " " + jobNameOption
        == submitCommand + " " + (jobScript + " " + jobNameOption);
    WordsCons(submitCommand, jobScript + " " + jobNameOption);
  }

  /** The command line is the script path, a blank, and the flags and the three arguments. */
  lemma CommandLineSplit(scriptDir: string, flags: string, submitCommand: string, jobScript: string, jobNameOption: string)
    ensures CommandLine(scriptDir, flags, submitCommand, jobScript, jobNameOption)
         == (scriptDir + "/SnB_run.sh") + " " + (flags + " " + (submitCommand + " " + jobScript + " " + jobNameOption))
  {
    var a, b := scriptDir + "/SnB_run.sh ", submitCommand + " " + jobScript + " " + jobNameOption;
    calc {
      CommandLine(scriptDir, flags, submitCommand, jobScript, jobNameOption);
      a + flags + " " + b;
      a + (flags + " " + b);
    }
    assert a == (scriptDir + "/SnB_run.sh") + " ";
  }

  /**
    The script receives its arguments in order: the flags when there are any
    (an empty flags field vanishes, as unquoted empty text does in the shell),
    then the submit command, the job script and the job-name option.
   */
  lemma CommandLineWords(scriptDir: string, flags: string, submitCommand: string, jobScript: string, jobNameOption: string)
    requires NoSpace(scriptDir) && NoSpace(flags)
    requires submitCommand != [] && NoSpace(submitCommand)
    requires jobScript != [] && NoSpace(jobScript)
    requires jobNameOption != [] && NoSpace(jobNameOption)
    ensures Words(CommandLine(scriptDir, flags, submitCommand, jobScript, jobNameOption))
         == [scriptDir + "/SnB_run.sh"] + (if flags == "" then [] else [flags])
            + [submitCommand, jobScript, jobNameOption]
  {
    var script := scriptDir + "/SnB_run.sh";
    ScriptPathNoSpace(scriptDir);
    var tail3 := submitCommand + " " + jobScript + " " + jobNameOption;
    LastArgumentsWords(submitCommand, jobScript, jobNameOption);
    var rest := flags + " " + tail3;
    CommandLineSplit(scriptDir, flags, submitCommand, jobScript, jobNameOption);
    WordsCons(script, rest);
    if flags == "" {
      assert rest == " " + tail3;
      WordsBlank(tail3);
    } else {
      WordsCons(flags, tail3);
    }
  }
}
