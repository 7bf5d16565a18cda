/**
 * The configuration compiler of the cloud-init generator widget: it builds
 * the flag list push by push, joins it behind the tool's path, and puts the
 * resulting init command into the `#cloud-config` template. Also the
 * catalog lookups of the current choices and the password-length hint.
 */
module Generator {
  import opened Strings
  import opened InitFlags
  import Catalog
  import Template

  /** The generated document for `c`. */
  function CloudConfig(c: Config): (doc: string)
    ensures Template.ExtractCommand(doc) == Some(InitCommand(c))
  {
    Template.ExtractRender(InitCommand(c));
    Template.Render(InitCommand(c))
  }

  /**
   * Builds `initFlags` as the generator does: start empty and push each flag
   * whose condition holds, in order. The result is the rule table's list.
   */
  method BuildInitFlags(c: Config) returns (initFlags: seq<string>)
    ensures initFlags == Flags(c)
  {
    initFlags := [];
    if c.username != "" {
      initFlags := initFlags + [UsernamePrefix + c.username];
    }
    if c.password != "" {
      initFlags := initFlags + [PasswordPrefix + c.password + "'"];
    }
    initFlags := initFlags + [WebServerPrefix + c.webServer];
    initFlags := initFlags + [DatabasePrefix + c.databaseType];
    if c.nodejs {
      initFlags := initFlags + [NodejsFlag];
    }
    if c.yarn && c.webServer == "mern" {
      initFlags := initFlags + [YarnFlag];
    }
    EmittedExactly(c);
  }

  /**
   * Generates the document for `c`: the constant template text around the
   * init command, from which the command reads back unchanged.
   */
  method GenerateCloudInit(c: Config) returns (doc: string)
    ensures doc == CloudConfig(c)
    ensures doc == Template.Before + InitCommand(c) + Template.After
    ensures Template.ExtractCommand(doc) == Some(InitCommand(c))
  {
    var initFlags := BuildInitFlags(c);
    var initCommand := InitPrefix + Join(initFlags, " ");
    doc := Template.Render(initCommand);
    Template.RenderSplits(initCommand);
    Template.ExtractRender(initCommand);
  }

  /**
   * Only the init command depends on the configuration: two states give the
   * same document exactly when they give the same init command.
   */
  lemma OnlyTheCommandVaries(c1: Config, c2: Config)
    ensures CloudConfig(c1) == CloudConfig(c2) <==> InitCommand(c1) == InitCommand(c2)
  {
    Template.RenderInjective(InitCommand(c1), InitCommand(c2));
  }

  /** Every flag of the list occurs verbatim in the init command and in the document. */
  lemma FlagsInDocument(c: Config, i: nat)
    requires i < |Flags(c)|
    ensures Infix(Flags(c)[i], InitCommand(c))
    ensures Infix(Flags(c)[i], CloudConfig(c))
  {
    JoinKeepsParts(Flags(c), " ", i);
    InfixWithin(Flags(c)[i], InitPrefix, Join(Flags(c), " "), "");
    assert InitPrefix + Join(Flags(c), " ") + "" == InitCommand(c);
    Template.RenderSplits(InitCommand(c));
    InfixWithin(Flags(c)[i], Template.Before, InitCommand(c), Template.After);
  }

  // ---------------------------------------------------------------------------
  // What the form shows beside the generated document
  // ---------------------------------------------------------------------------

  /** The descriptor of the chosen web server, whose description the form shows. */
  function SelectedWebServer(c: Config): (r: Option<Catalog.Descriptor>)
    ensures r.Some? <==> c.webServer in Catalog.Values(Catalog.WebServers)
    ensures r.Some? ==> r.value in Catalog.WebServers && r.value.value == c.webServer
  {
    Catalog.FindSucceedsIffListed(Catalog.WebServers, c.webServer);
    Catalog.Find(Catalog.WebServers, c.webServer)
  }

  /** The descriptor of the chosen database, whose description the form shows. */
  function SelectedDatabase(c: Config): (r: Option<Catalog.Descriptor>)
    ensures r.Some? <==> c.databaseType in Catalog.Values(Catalog.Databases)
    ensures r.Some? ==> r.value in Catalog.Databases && r.value.value == c.databaseType
  {
    Catalog.FindSucceedsIffListed(Catalog.Databases, c.databaseType);
    Catalog.Find(Catalog.Databases, c.databaseType)
  }

  /**
   * Both lookups succeed exactly for a well-formed state, and then give the
   * catalog entry whose value is the chosen one.
   */
  lemma SelectionsFound(c: Config)
    ensures SelectedWebServer(c).Some? && SelectedDatabase(c).Some? <==> WellFormed(c)
    ensures SelectedWebServer(c).Some? ==>
      SelectedWebServer(c).value in Catalog.WebServers && SelectedWebServer(c).value.value == c.webServer
    ensures SelectedDatabase(c).Some? ==>
      SelectedDatabase(c).value in Catalog.Databases && SelectedDatabase(c).value.value == c.databaseType
  {
    Catalog.FindSucceedsIffListed(Catalog.WebServers, c.webServer);
    Catalog.FindSucceedsIffListed(Catalog.Databases, c.databaseType);
  }

  /** Choosing the i-th web server shows exactly that entry's description. */
  lemma SelectedWebServerIsEntry(c: Config, i: nat)
    requires i < |Catalog.WebServers| && c.webServer == Catalog.WebServers[i].value
    ensures SelectedWebServer(c) == Some(Catalog.WebServers[i])
  {
    Catalog.CatalogsWellFormed();
    Catalog.FindsOwnEntry(Catalog.WebServers, i);
  }

  /** Choosing the i-th database shows exactly that entry's description. */
  lemma SelectedDatabaseIsEntry(c: Config, i: nat)
    requires i < |Catalog.Databases| && c.databaseType == Catalog.Databases[i].value
    ensures SelectedDatabase(c) == Some(Catalog.Databases[i])
  {
    Catalog.CatalogsWellFormed();
    Catalog.FindsOwnEntry(Catalog.Databases, i);
  }

  /**
   * The hint under the password field: a password that is set but shorter
   * than 8 UTF-16 code units (JavaScript's `length`). A character outside the
   * Basic Multilingual Plane counts twice, so the hint can disappear before
   * the password has 8 characters.
   */
  function PasswordWarning(password: string): (warn: bool)
    ensures warn ==> 0 < |password| < 8
    ensures 0 < |password| < 4 ==> warn
    ensures (forall i :: 0 <= i < |password| ==> !Astral(password[i])) ==> (warn <==> 0 < |password| < 8)
  {
    0 < Utf16Length(password) < 8
  }

  /** Four emoji are 8 UTF-16 code units: no hint, although there are only four characters. */
  lemma AstralPasswordNotWarned()
    ensures var p := "\U{1F600}\U{1F600}\U{1F600}\U{1F600}"; |p| == 4 && !PasswordWarning(p)
  {
    var p := "\U{1F600}\U{1F600}\U{1F600}\U{1F600}";
    assert Astral(p[0]) && Astral(p[1]) && Astral(p[2]) && Astral(p[3]);
    assert p[1..][1..][1..][1..] == [];
  }

  /**
   * The hint does not hold generation back: a password that draws it is
   * still emitted, quoted, and reaches the document.
   */
  lemma WarnedPasswordStillEmitted(c: Config)
    requires PasswordWarning(c.password)
    ensures PasswordPrefix + c.password + "'" in Flags(c)
    ensures Infix(PasswordPrefix + c.password + "'", CloudConfig(c))
  {
    PasswordFlag(c);
    var i :| 0 <= i < |Flags(c)| && Flags(c)[i] == PasswordPrefix + c.password + "'";
    FlagsInDocument(c, i);
  }
}
