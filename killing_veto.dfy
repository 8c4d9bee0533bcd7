/**
 * The process-kill veto of the MSBuild plugin: the build platform asks it,
 * for each process it is about to reap, whether that process must be spared.
 * Only the debug-symbol server `mspdbsrv.exe` is spared, because several
 * concurrent builds share it.
 */
module KillingVeto {
  import opened Wrappers

  /** The executable whose termination is vetoed. */
  const HelperImage: string := "mspdbsrv.exe"

  /** The exact text of the veto cause. */
  const VetoMessage: string := "MSBuild Plugin vetoes killing mspdbsrv.exe, see JENKINS-9104 for all the details"

  /** The answer of a veto: the reason why a process must not be killed. */
  datatype VetoCause = VetoCause(message: string)

  /** Both Windows and Unix directory separators are accepted. */
  predicate IsSeparator(c: char) {
    c == '\\' || c == '/'
  }

  predicate NoSeparator(s: string) {
    forall i :: 0 <= i < |s| ==> !IsSeparator(s[i])
  }

  /**
   * The file name of a path: what follows its last separator. The result
   * is the longest suffix of `path` that holds no separator.
   */
  function BaseName(path: string): (name: string)
    ensures |name| <= |path| && name == path[|path| - |name|..]
    ensures NoSeparator(name)
    ensures |name| < |path| ==> IsSeparator(path[|path| - |name| - 1])
  {
    if path == [] then []
    else if IsSeparator(path[|path| - 1]) then []
    else BaseName(path[..|path| - 1]) + [path[|path| - 1]]
  }

  /** ASCII upper-case letters folded to lower case; every other character unchanged. */
  function LowerAscii(c: char): (d: char)
    ensures 'A' <= c <= 'Z' ==> 'a' <= d <= 'z' && d as int - c as int == 32
    ensures !('A' <= c <= 'Z') ==> d == c
  {
    if 'A' <= c <= 'Z' then (c as int + 32) as char else c
  }

  /** Equality of two strings up to the case of their ASCII letters. */
  predicate EqualsIgnoreCase(a: string, b: string) {
    |a| == |b| && forall i :: 0 <= i < |a| ==> LowerAscii(a[i]) == LowerAscii(b[i])
  }

  /** Whether an executable path names the helper, in any directory and any case. */
  predicate IsHelperImage(executable: string) {
    EqualsIgnoreCase(BaseName(executable), HelperImage)
  }

  /**
   * The veto for a process given by its argument list (`None` for a null
   * process); argument 0 is the process's executable.
   */
  function VetoProcessKilling(process: Option<seq<string>>): (cause: Option<VetoCause>)
    ensures cause.Some? <==> process.Some? && |process.value| > 0 && IsHelperImage(process.value[0])
    ensures cause.Some? ==> cause.value.message == VetoMessage
  {
    match process
    case None => None
    case Some(args) =>
      if |args| > 0 && IsHelperImage(args[0]) then Some(VetoCause(VetoMessage)) else None
  }

  /** A path made of a directory, one separator and a plain name has that name as base name. */
  lemma {:induction false} BaseNameUnderDirectory(dir: string, sep: char, name: string)
    requires IsSeparator(sep) && NoSeparator(name)
    ensures BaseName(dir + [sep] + name) == name
  {
    var path := dir + [sep] + name;
    if name != [] {
      var init := name[..|name| - 1];
      assert path[..|path| - 1] == dir + [sep] + init;
      assert path[|path| - 1] == name[|name| - 1];
      BaseNameUnderDirectory(dir, sep, init);
      assert name == init + [name[|name| - 1]];
    }
  }

  /** A name without any directory part is its own base name. */
  lemma {:induction false} BaseNameOfPlainName(name: string)
    requires NoSeparator(name)
    ensures BaseName(name) == name
  {
    if name != [] {
      var init := name[..|name| - 1];
      BaseNameOfPlainName(init);
      assert name == init + [name[|name| - 1]];
    }
  }

  /** A null process is never vetoed. */
  lemma NullProcessNotVetoed()
    ensures VetoProcessKilling(None) == None
  {
  }

  /** A process with no arguments is never vetoed. */
  lemma EmptyArgumentsNotVetoed()
    ensures VetoProcessKilling(Some([])) == None
  {
  }

  /**
   * Only argument 0 decides: the arguments after the executable never
   * change the answer.
   */
  lemma OnlyExecutableCounts(executable: string, rest1: seq<string>, rest2: seq<string>)
    ensures VetoProcessKilling(Some([executable] + rest1)) == VetoProcessKilling(Some([executable] + rest2))
  {
  }

  /**
   * Path independence: for an executable `dir + sep + name`, the veto holds
   * exactly when `name` is the helper up to case, whatever the directory and
   * whichever separator is used.
   */
  lemma VetoByFileName(dir: string, sep: char, name: string, rest: seq<string>)
    requires IsSeparator(sep) && NoSeparator(name)
    ensures VetoProcessKilling(Some([dir + [sep] + name] + rest)) ==
            if EqualsIgnoreCase(name, HelperImage) then Some(VetoCause(VetoMessage)) else None
  {
    BaseNameUnderDirectory(dir, sep, name);
  }

  /** Case insensitivity: executables whose names differ only in case get the same answer. */
  lemma VetoIgnoresCase(exe1: string, exe2: string, rest: seq<string>)
    requires EqualsIgnoreCase(BaseName(exe1), BaseName(exe2))
    ensures VetoProcessKilling(Some([exe1] + rest)) == VetoProcessKilling(Some([exe2] + rest))
  {
  }

  /** The helper is spared, with its fixed message, in its Visual Studio directory. */
  lemma SparesHelper()
    ensures VetoProcessKilling(Some(["C:\\Program Files (x86)\\Microsoft Visual Studio\\bin\\mspdbsrv.exe", "something", "else"]))
            == Some(VetoCause("MSBuild Plugin vetoes killing mspdbsrv.exe, see JENKINS-9104 for all the details"))
  {
    var dir, name := "C:\\Program Files (x86)\\Microsoft Visual Studio\\bin", "mspdbsrv.exe";
    assert NoSeparator(name) && EqualsIgnoreCase(name, HelperImage);
    VetoByFileName(dir, '\\', name, ["something", "else"]);
    assert "C:\\Program Files (x86)\\Microsoft Visual Studio\\bin\\mspdbsrv.exe" == dir + ['\\'] + name;
  }

  /** The helper is spared whatever the case of its name. */
  lemma SparesHelperInAnyCase()
    ensures VetoProcessKilling(Some(["C:\\Program Files (x86)\\Microsoft Visual Studio\\bin\\MsPdbSrv.exe", "something", "else"]))
            == Some(VetoCause(VetoMessage))
  {
    var dir, name := "C:\\Program Files (x86)\\Microsoft Visual Studio\\bin", "MsPdbSrv.exe";
    assert NoSeparator(name) && EqualsIgnoreCase(name, HelperImage);
    VetoByFileName(dir, '\\', name, ["something", "else"]);
    assert "C:\\Program Files (x86)\\Microsoft Visual Studio\\bin\\MsPdbSrv.exe" == dir + ['\\'] + name;
  }

  /** The helper is spared in any directory, with forward slashes too. */
  lemma SparesHelperAnywhere()
    ensures VetoProcessKilling(Some(["D:/Tools/mspdbsrv.exe"])) == Some(VetoCause(VetoMessage))
  {
    var dir, name := "D:/Tools", "mspdbsrv.exe";
    assert NoSeparator(name) && EqualsIgnoreCase(name, HelperImage);
    VetoByFileName(dir, '/', name, []);
    assert "D:/Tools/mspdbsrv.exe" == dir + ['/'] + name;
  }

  /** Another executable in the same directory as the helper is left alone. */
  lemma LeavesOtherToolsAlone(name: string)
    requires NoSeparator(name) && !EqualsIgnoreCase(name, HelperImage)
    ensures VetoProcessKilling(Some(["C:\\Program Files (x86)\\Microsoft Visual Studio\\bin\\" + name])) == None
  {
    var dir := "C:\\Program Files (x86)\\Microsoft Visual Studio\\bin";
    VetoByFileName(dir, '\\', name, []);
    assert "C:\\Program Files (x86)\\Microsoft Visual Studio\\bin\\" + name == dir + ['\\'] + name;
  }

  /** The compiler and the linker are not spared. */
  lemma LeavesCompilerAndLinkerAlone()
    ensures VetoProcessKilling(Some(["C:\\Program Files (x86)\\Microsoft Visual Studio\\bin\\" + "cl.exe"])) == None
    ensures VetoProcessKilling(Some(["C:\\Program Files (x86)\\Microsoft Visual Studio\\bin\\" + "link.exe"])) == None
  {
    LeavesOtherToolsAlone("cl.exe");
    LeavesOtherToolsAlone("link.exe");
  }

  /** An executable of another name elsewhere is left alone. */
  lemma LeavesOthersAnywhere()
    ensures VetoProcessKilling(Some(["D:/Tools/" + "somethingElse.exe"])) == None
  {
    var dir, name := "D:/Tools", "somethingElse.exe";
    assert NoSeparator(name);
    VetoByFileName(dir, '/', name, []);
    assert "D:/Tools/" + name == dir + ['/'] + name;
  }
}
