/**
 * Whether a node runs Windows, judged from its environment variables. The
 * environment map is taken as already fetched from the node.
 */
module Platform {

  /** The environment variable that names the operating system. */
  const OsVariable: string := "OS"

  /** The value of `OS` on Windows nodes. */
  const WindowsOs: string := "Windows_NT"

  /** True exactly when `OS` is set and equals `Windows_NT`, character for character. */
  function CheckIfOsIsWindows(env: map<string, string>): (windows: bool)
    ensures windows ==> OsVariable in env && env[OsVariable] == WindowsOs
    ensures OsVariable in env && env[OsVariable] == WindowsOs ==> windows
  {
    OsVariable in env && env[OsVariable] == WindowsOs
  }

  /** A node without an `OS` variable is not taken for Windows. */
  lemma MissingOsIsNotWindows(env: map<string, string>)
    requires OsVariable !in env
    ensures !CheckIfOsIsWindows(env)
  {
  }

  /** A longer value that merely starts with `Windows_NT` does not match. */
  lemma PrefixIsNotEnough(env: map<string, string>, suffix: string)
    requires OsVariable in env && env[OsVariable] == WindowsOs + suffix && suffix != ""
    ensures !CheckIfOsIsWindows(env)
  {
    assert |env[OsVariable]| > |WindowsOs|;
  }

  /** A value that is only part of `Windows_NT` does not match either. */
  lemma PartIsNotEnough(env: map<string, string>)
    requires OsVariable in env && env[OsVariable] < WindowsOs
    ensures !CheckIfOsIsWindows(env)
  {
  }

  /** Variables other than `OS` do not affect the answer. */
  lemma OtherVariablesIgnored(env: map<string, string>, name: string, value: string)
    requires name != OsVariable
    ensures CheckIfOsIsWindows(env[name := value]) == CheckIfOsIsWindows(env)
  {
  }

  /** The installer test: `Windows_NT` is Windows. */
  lemma WindowsNodeIsWindows()
    ensures CheckIfOsIsWindows(map["OS" := "Windows_NT"])
  {
  }

  /** The installer test: `Linux` is not Windows. */
  lemma LinuxNodeIsNotWindows(env: map<string, string>)
    requires OsVariable in env && env[OsVariable] == "Linux"
    ensures !CheckIfOsIsWindows(env)
  {
    assert env[OsVariable][0] != WindowsOs[0];
  }
}
