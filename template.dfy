/**
 * The `#cloud-config` document: a constant template, one line per template
 * line, with a single hole on the `runcmd` entry that runs the init command.
 */
module Template {
  import opened Strings

  /** The shell commands of the constant `runcmd` entries. */
  const Housekeeping := "export DEBIAN_FRONTEND=noninteractive && apt-get autoremove -y"
  const Download :=
    "wget -O /usr/local/bin/tenbyte-cloud-init https://github.com/vidinfra/tenbyte-init/raw/main/tenbyte-cloud-init-linux-amd64"
  const MakeExecutable := "chmod +x /usr/local/bin/tenbyte-cloud-init"
  const EnableRootLogin := "echo 'PermitRootLogin yes' > /etc/ssh/sshd_config.d/allow_root_login.conf"
  const RestartSsh := "systemctl restart ssh || systemctl restart sshd || service ssh restart || service sshd restart"

  /** A `runcmd` entry runs one command through `bash -lc`. */
  const EntryOpen := "  - [ bash, -lc, \""
  const EntryClose := "\" ]"

  function Entry(command: string): string
  {
    EntryOpen + command + EntryClose
  }

  /** The template lines before the first `runcmd` entry. */
  const Preamble: seq<string> := [
    "#cloud-config",
    "package_update: true",
    "package_upgrade: true",
    "",
    "packages:",
    "  - wget",
    "  - ca-certificates",
    "",
    "runcmd:",
    "  # Housekeeping"
  ]

  const DownloadComment := "  # Download and run tenbyte init"

  /** The housekeeping and download steps. */
  const Steps: seq<string> := [Entry(Housekeeping), "", DownloadComment, Entry(Download), Entry(MakeExecutable)]

  /** The template lines before the hole. */
  const Header: seq<string> := Preamble + Steps

  /** The template lines after the hole. */
  const Footer: seq<string> := [
    "",
    "  # Enable root SSH login",
    Entry(EnableRootLogin),
    Entry(RestartSsh)
  ]

  /** The document's lines with `initCommand` in the hole. */
  function Lines(initCommand: string): seq<string>
  {
    Header + [Entry(initCommand)] + Footer
  }

  /** The document text: the lines joined by newlines, with no newline at the end. */
  function Render(initCommand: string): (doc: string)
    ensures "#cloud-config" <= doc
  {
    assert Lines(initCommand)[0] == "#cloud-config";
    Join(Lines(initCommand), "\n")
  }

  /** All the text before the hole and all the text after it. */
  const Before := Join(Header, "\n") + "\n" + EntryOpen
  const After := EntryClose + "\n" + Join(Footer, "\n")

  /** The document is the constant text Before, the command, and the constant text After. */
  lemma RenderSplits(initCommand: string)
    ensures Render(initCommand) == Before + initCommand + After
  {
    var hole := [Entry(initCommand)];
    JoinConcat(Header, hole, "\n");
    JoinConcat(Header + hole, Footer, "\n");
    assert Lines(initCommand) == (Header + hole) + Footer;
  }

  /** Reads the command back out of a document, if the document has the template's shape. */
  function ExtractCommand(doc: string): Option<string>
  {
    if |doc| >= |Before| + |After| && Before <= doc && doc[|doc| - |After|..] == After then
      Some(doc[|Before|..|doc| - |After|])
    else None
  }

  /** Extraction inverts rendering: the hole holds the command, unchanged. */
  lemma ExtractRender(initCommand: string)
    ensures ExtractCommand(Render(initCommand)) == Some(initCommand)
  {
    RenderSplits(initCommand);
    var doc := Render(initCommand);
    assert doc[..|Before|] == Before;
    assert doc[|doc| - |After|..] == After;
    assert doc[|Before|..|doc| - |After|] == initCommand;
  }

  /** Different commands give different documents. */
  lemma RenderInjective(a: string, b: string)
    ensures Render(a) == Render(b) ==> a == b
  {
    ExtractRender(a);
    ExtractRender(b);
  }

  /** A line is a `runcmd` entry when it has the entry's opening and closing text. */
  predicate IsEntry(line: string)
  {
    |line| >= |EntryOpen| + |EntryClose| && EntryOpen <= line &&
    line[|line| - |EntryClose|..] == EntryClose
  }

  /** The commands of the `runcmd` entries among `lines`, in order. */
  function RunCommands(lines: seq<string>): seq<string>
  {
    if lines == [] then []
    else
      (if IsEntry(lines[0]) then [lines[0][|EntryOpen|..|lines[0]| - |EntryClose|]] else []) +
      RunCommands(lines[1..])
  }

  lemma {:induction false} RunCommandsConcat(a: seq<string>, b: seq<string>)
    ensures RunCommands(a + b) == RunCommands(a) + RunCommands(b)
  {
    if a == [] {
      assert a + b == b;
    } else {
      assert (a + b)[0] == a[0];
      assert (a + b)[1..] == a[1..] + b;
      RunCommandsConcat(a[1..], b);
    }
  }

  /** Lines none of which is an entry contribute no command. */
  lemma {:induction false} NoEntries(lines: seq<string>)
    requires forall i :: 0 <= i < |lines| ==> !IsEntry(lines[i])
    ensures RunCommands(lines) == []
  {
    if lines != [] {
      NoEntries(lines[1..]);
    }
  }

  /** A line that differs from the entry opening at some position is not an entry. */
  lemma DiffersAt(line: string, k: nat)
    requires k < |EntryOpen| && (k >= |line| || line[k] != EntryOpen[k])
    ensures !IsEntry(line)
  {
  }

  /** An entry line contributes exactly its command. */
  lemma EntryCommand(command: string, rest: seq<string>)
    ensures RunCommands([Entry(command)] + rest) == [command] + RunCommands(rest)
  {
    var line := Entry(command);
    assert line[|EntryOpen|..|line| - |EntryClose|] == command;
    assert line[|line| - |EntryClose|..] == EntryClose;
    assert ([line] + rest)[1..] == rest;
  }

  /** A non-entry line contributes nothing. */
  lemma SkipLine(line: string, rest: seq<string>)
    requires !IsEntry(line)
    ensures RunCommands([line] + rest) == RunCommands(rest)
  {
    assert ([line] + rest)[1..] == rest;
  }

  /** The text lines of the header before its first entry. */
  lemma PreambleHasNoEntries()
    ensures RunCommands(Preamble) == []
  {
    var p := Preamble;
    DiffersAt(p[0], 0);
    DiffersAt(p[1], 0);
    DiffersAt(p[2], 0);
    DiffersAt(p[3], 0);
    DiffersAt(p[4], 0);
    DiffersAt(p[5], 4);
    DiffersAt(p[6], 4);
    DiffersAt(p[7], 0);
    DiffersAt(p[8], 0);
    DiffersAt(p[9], 2);
    NoEntries(p);
  }

  /** The steps before the hole run housekeeping, download and make-executable, in that order. */
  lemma StepsCommands()
    ensures RunCommands(Steps) == [Housekeeping, Download, MakeExecutable]
  {
    var r0: seq<string> := [Entry(MakeExecutable)];
    var r1 := [Entry(Download)] + r0;
    var r2 := [DownloadComment] + r1;
    var r3 := [""] + r2;
    assert Steps == [Entry(Housekeeping)] + r3;
    DiffersAt("", 0);
    DiffersAt(DownloadComment, 2);
    assert RunCommands(r0) == [MakeExecutable] by { EntryCommand(MakeExecutable, []); }
    assert RunCommands(r1) == [Download, MakeExecutable] by { EntryCommand(Download, r0); }
    assert RunCommands(r3) == [Download, MakeExecutable] by {
      SkipLine(DownloadComment, r1);
      SkipLine("", r2);
    }
    EntryCommand(Housekeeping, r3);
  }

  /** The commands of the header: housekeeping, download, make executable. */
  lemma HeaderCommands()
    ensures RunCommands(Header) == [Housekeeping, Download, MakeExecutable]
  {
    RunCommandsConcat(Preamble, Steps);
    PreambleHasNoEntries();
    StepsCommands();
  }

  /** The steps after the hole enable root login, then restart ssh. */
  lemma FooterCommands()
    ensures RunCommands(Footer) == [EnableRootLogin, RestartSsh]
  {
    var r0: seq<string> := [Entry(RestartSsh)];
    var r1 := [Entry(EnableRootLogin)] + r0;
    var r2 := ["  # Enable root SSH login"] + r1;
    assert Footer == [""] + r2;
    DiffersAt("", 0);
    DiffersAt("  # Enable root SSH login", 2);
    assert RunCommands(r0) == [RestartSsh] by { EntryCommand(RestartSsh, []); }
    assert RunCommands(r1) == [EnableRootLogin, RestartSsh] by { EntryCommand(EnableRootLogin, r0); }
    SkipLine("  # Enable root SSH login", r1);
    SkipLine("", r2);
  }

  /**
   * The `runcmd` entries of the document run, in this order: housekeeping,
   * download, make executable, the init command, enable root login, restart
   * ssh; whatever the init command is.
   */
  lemma RunCommandOrder(initCommand: string)
    ensures RunCommands(Lines(initCommand)) ==
      [Housekeeping, Download, MakeExecutable, initCommand, EnableRootLogin, RestartSsh]
  {
    RunCommandsConcat(Header, [Entry(initCommand)]);
    RunCommandsConcat(Header + [Entry(initCommand)], Footer);
    HeaderCommands();
    FooterCommands();
    EntryCommand(initCommand, []);
  }
}
