/**
 * Staging of the component-selection file `<workspace>/.vsconfig`. The
 * remote file handle is an object whose content the operations change and
 * which records every call made on it, so that the exact calls of one
 * `UseConfigFile` can be stated.
 */
module VsConfig {
  import opened Wrappers
  import opened Paths

  /** The component-selection file's name under the workspace. */
  const ConfigFileName: string := ".vsconfig"

  /** The encoding the file is written in. */
  const Encoding: string := "UTF-8"

  /** A call made on a remote file handle. */
  datatype Call = Exists | ReadToString | Write(text: string, encoding: string) | Delete

  /** A remote file: its content (`None` while it does not exist) and the calls made on it. */
  class RemoteFile {
    const path: Path
    var content: Option<string>
    var calls: seq<Call>

    constructor (path: Path, content: Option<string>)
      ensures this.path == path && this.content == content && calls == []
    {
      this.path := path;
      this.content := content;
      calls := [];
    }

    /** Whether the file exists. */
    method Exists() returns (present: bool)
      modifies this
      ensures present <==> content.Some?
      ensures content == old(content) && calls == old(calls) + [Call.Exists]
    {
      present := content.Some?;
      calls := calls + [Call.Exists];
    }

    /** The whole text of an existing file. */
    method ReadToString() returns (text: string)
      requires content.Some?
      modifies this
      ensures content == old(content) && calls == old(calls) + [Call.ReadToString]
      ensures text == content.value
    {
      text := content.value;
      calls := calls + [Call.ReadToString];
    }

    /** Replaces the file's content, creating the file when it is missing. */
    method Write(text: string, encoding: string)
      modifies this
      ensures content == Some(text) && calls == old(calls) + [Call.Write(text, encoding)]
    {
      content := Some(text);
      calls := calls + [Call.Write(text, encoding)];
    }

    /** Removes the file; a missing file stays missing. */
    method Delete()
      modifies this
      ensures content == None && calls == old(calls) + [Call.Delete]
    {
      content := None;
      calls := calls + [Call.Delete];
    }
  }

  /** Whether desired content makes the file active: null and "" do not. */
  predicate IsActive(vsconfig: Option<string>) {
    vsconfig.Some? && vsconfig.value != ""
  }

  /** The calls `UseConfigFile` makes, given the desired content and the file's content beforehand. */
  function Calls(vsconfig: Option<string>, current: Option<string>): seq<Call> {
    if !IsActive(vsconfig) then [Delete]
    else if current.None? then [Exists, Write(vsconfig.value, Encoding)]
    else if current.value == vsconfig.value then [Exists, ReadToString]
    else [Exists, ReadToString, Write(vsconfig.value, Encoding)]
  }

  /** The file's content after `UseConfigFile`. */
  function Outcome(vsconfig: Option<string>, current: Option<string>): Option<string> {
    if IsActive(vsconfig) then vsconfig else None
  }

  /**
   * Brings `<workspace>/.vsconfig` in line with the desired content: without
   * content the file is deleted and the answer is false; with content the
   * file is written unless it already holds exactly that text, and the
   * answer is true.
   */
  method UseConfigFile(vsconfig: Option<string>, workspace: Path, file: RemoteFile) returns (active: bool)
    requires file.path == Child(workspace, ConfigFileName)
    modifies file
    ensures active == IsActive(vsconfig)
    ensures file.content == Outcome(vsconfig, old(file.content))
    ensures file.calls == old(file.calls) + Calls(vsconfig, old(file.content))
  {
    if !IsActive(vsconfig) {
      file.Delete();
      return false;
    }
    var desired := vsconfig.value;
    var present := file.Exists();
    if present {
      var text := file.ReadToString();
      if text == desired {
        return true;
      }
    }
    file.Write(desired, Encoding);
    return true;
  }

  /** Without desired content the only call is one delete, and the file is gone afterwards. */
  lemma InactiveOnlyDeletes(vsconfig: Option<string>, current: Option<string>)
    requires !IsActive(vsconfig)
    ensures Calls(vsconfig, current) == [Delete]
    ensures Outcome(vsconfig, current).None?
  {
  }

  /** With desired content nothing is deleted, and the file is probed first. */
  lemma ActiveNeverDeletes(vsconfig: Option<string>, current: Option<string>)
    requires IsActive(vsconfig)
    ensures Calls(vsconfig, current)[0] == Exists
    ensures forall i :: 0 <= i < |Calls(vsconfig, current)| ==> !Calls(vsconfig, current)[i].Delete?
  {
  }

  /** The file is read only when it exists. */
  lemma ReadsOnlyExistingFile(vsconfig: Option<string>, current: Option<string>)
    ensures ReadToString in Calls(vsconfig, current) ==> current.Some?
  {
  }

  /** A write happens exactly when the file is to be active and does not already hold the desired text. */
  lemma WritesIffDiffers(vsconfig: Option<string>, current: Option<string>)
    ensures (exists i :: 0 <= i < |Calls(vsconfig, current)| && Calls(vsconfig, current)[i].Write?)
        <==> IsActive(vsconfig) && current != vsconfig
  {
    var calls := Calls(vsconfig, current);
    if IsActive(vsconfig) && current != vsconfig {
      assert calls[|calls| - 1].Write?;
    }
  }

  /** Every write puts the desired text, as UTF-8, and is the last call. */
  lemma WritesDesiredTextAsUtf8(vsconfig: Option<string>, current: Option<string>, i: nat)
    requires i < |Calls(vsconfig, current)| && Calls(vsconfig, current)[i].Write?
    ensures vsconfig.Some? && Calls(vsconfig, current)[i] == Write(vsconfig.value, Encoding)
    ensures i == |Calls(vsconfig, current)| - 1
  {
  }

  /** Afterwards the file exists exactly when it is active, and then holds the desired text. */
  lemma OutcomeMatchesDesired(vsconfig: Option<string>, current: Option<string>)
    ensures Outcome(vsconfig, current).Some? <==> IsActive(vsconfig)
    ensures IsActive(vsconfig) ==> Outcome(vsconfig, current) == vsconfig
  {
  }

  /** A second run with the same content changes nothing and writes nothing. */
  lemma SecondRunIsQuiet(vsconfig: Option<string>, current: Option<string>)
    ensures Outcome(vsconfig, Outcome(vsconfig, current)) == Outcome(vsconfig, current)
    ensures forall i :: 0 <= i < |Calls(vsconfig, Outcome(vsconfig, current))| ==>
      !Calls(vsconfig, Outcome(vsconfig, current))[i].Write?
  {
  }

  /** The installer test: null content deletes the file and answers false. */
  lemma NullContent(current: Option<string>)
    ensures !IsActive(None) && Calls(None, current) == [Delete]
  {
  }

  /** The installer test: empty content deletes the file and answers false. */
  lemma EmptyContent(current: Option<string>)
    ensures !IsActive(Some("")) && Calls(Some(""), current) == [Delete]
  {
  }

  /** The installer test: content for a missing file is written as UTF-8 and answers true. */
  lemma ContentForMissingFile()
    ensures IsActive(Some("some config"))
    ensures Calls(Some("some config"), None) == [Exists, Write("some config", "UTF-8")]
  {
  }

  /** The installer test: new content replaces different old content and answers true. */
  lemma ContentReplacesOld()
    ensures IsActive(Some("new config"))
    ensures Calls(Some("new config"), Some("old config")) == [Exists, ReadToString, Write("new config", "UTF-8")]
    ensures Outcome(Some("new config"), Some("old config")) == Some("new config")
  {
    assert "old config"[0] != "new config"[0];
  }
}
