/**
 * The widget state and the flag list of the `tenbyte-cloud-init init` call.
 *
 * The flag list is specified here as a rule table: six flags considered in a
 * fixed order, each with the condition under which it is emitted and its text.
 * The push-by-push construction of the generator is proved equal to it in
 * module Generator.
 */
module InitFlags {
  import opened Strings
  import Catalog

  /** The form state read by the generator; strings are taken as typed. */
  datatype Config = Config(
    username: string,
    password: string,
    webServer: string,
    databaseType: string,
    nodejs: bool,
    yarn: bool)

  /** The state the widget starts in. */
  const Default := Config("", "", "nginx", "mysql", false, false)

  /** Both categorical fields hold a value offered by their catalog. */
  predicate WellFormed(c: Config)
  {
    c.webServer in Catalog.Values(Catalog.WebServers) &&
    c.databaseType in Catalog.Values(Catalog.Databases)
  }

  datatype Flag = Username | Password | WebServer | DatabaseType | Nodejs | Yarn

  /** The order in which the flags are considered, and so appear. */
  const FlagOrder: seq<Flag> := [Username, Password, WebServer, DatabaseType, Nodejs, Yarn]

  /** Position of a flag in FlagOrder. */
  function Rank(f: Flag): nat
  {
    match f
    case Username => 0
    case Password => 1
    case WebServer => 2
    case DatabaseType => 3
    case Nodejs => 4
    case Yarn => 5
  }

  /**
   * When a flag is emitted. A string field counts when it is non-empty (the
   * truthiness of a string); `--yarn` also needs the MERN web server.
   */
  predicate Enabled(c: Config, f: Flag)
  {
    match f
    case Username => c.username != ""
    case Password => c.password != ""
    case WebServer => true
    case DatabaseType => true
    case Nodejs => c.nodejs
    case Yarn => c.yarn && c.webServer == "mern"
  }

  /** The value a flag carries; the bare flags carry none. */
  function Argument(c: Config, f: Flag): string
  {
    match f
    case Username => c.username
    case Password => c.password
    case WebServer => c.webServer
    case DatabaseType => c.databaseType
    case Nodejs => ""
    case Yarn => ""
  }

  const UsernamePrefix := "--username "
  const PasswordPrefix := "--password '"
  const WebServerPrefix := "--web-server "
  const DatabasePrefix := "--database-type "
  const NodejsFlag := "--nodejs"
  const YarnFlag := "--yarn"

  /** The text of a flag: values are inserted verbatim, the password between single quotes. */
  function Text(c: Config, f: Flag): string
  {
    match f
    case Username => UsernamePrefix + c.username
    case Password => PasswordPrefix + c.password + "'"
    case WebServer => WebServerPrefix + c.webServer
    case DatabaseType => DatabasePrefix + c.databaseType
    case Nodejs => NodejsFlag
    case Yarn => YarnFlag
  }

  /** The flags of `fs` that are enabled for `c`, in the order of `fs`. */
  function Select(c: Config, fs: seq<Flag>): seq<Flag>
  {
    if fs == [] then []
    else (if Enabled(c, fs[0]) then [fs[0]] else []) + Select(c, fs[1..])
  }

  /** The flags emitted for `c`, in order. */
  function Emitted(c: Config): seq<Flag>
  {
    Select(c, FlagOrder)
  }

  /** The flag list (`initFlags`) for `c`. */
  function Flags(c: Config): (r: seq<string>)
    ensures 2 <= |r| <= |FlagOrder|
    ensures forall i :: 0 <= i < |r| ==> "--" <= r[i]
  {
    var e := Emitted(c);
    EmittedExactly(c);
    assert forall f :: "--" <= Text(c, f) by {
      forall f ensures "--" <= Text(c, f) { TextIsOption(c, f); }
    }
    seq(|e|, i requires 0 <= i < |e| => Text(c, e[i]))
  }

  /** Every flag text is a long option: it begins with `--`. */
  lemma TextIsOption(c: Config, f: Flag)
    ensures "--" <= Text(c, f)
  {
    match f
    case Username => assert Text(c, f)[..2] == UsernamePrefix[..2];
    case Password => assert Text(c, f)[..2] == PasswordPrefix[..2];
    case WebServer => assert Text(c, f)[..2] == WebServerPrefix[..2];
    case DatabaseType => assert Text(c, f)[..2] == DatabasePrefix[..2];
    case Nodejs =>
    case Yarn =>
  }

  /**
   * Reads one flag back: which flag a text is and the value it carries. This
   * is the inverse of Text used to state that values go in verbatim.
   */
  function Parse(s: string): Option<(Flag, string)>
  {
    if UsernamePrefix <= s then Some((Username, s[|UsernamePrefix|..]))
    else if PasswordPrefix <= s && |s| > |PasswordPrefix| && s[|s| - 1] == '\'' then
      Some((Password, s[|PasswordPrefix|..|s| - 1]))
    else if WebServerPrefix <= s then Some((WebServer, s[|WebServerPrefix|..]))
    else if DatabasePrefix <= s then Some((DatabaseType, s[|DatabasePrefix|..]))
    else if s == NodejsFlag then Some((Nodejs, ""))
    else if s == YarnFlag then Some((Yarn, ""))
    else None
  }

  /** The kind of flag a text is, if any. */
  function KindOf(s: string): Option<Flag>
  {
    match Parse(s)
    case Some(p) => Some(p.0)
    case None => None
  }

  // ---------------------------------------------------------------------------
  // The rule table
  // ---------------------------------------------------------------------------

  /** Selection keeps exactly the enabled flags of its input. */
  lemma {:induction false} SelectMembers(c: Config, fs: seq<Flag>, f: Flag)
    ensures f in Select(c, fs) <==> f in fs && Enabled(c, f)
  {
    if fs != [] {
      SelectMembers(c, fs[1..], f);
      assert fs == [fs[0]] + fs[1..];
    }
  }

  /** Selection from a list with strictly increasing ranks keeps them strictly increasing. */
  lemma {:induction false} SelectOrdered(c: Config, fs: seq<Flag>)
    requires forall i, j :: 0 <= i < j < |fs| ==> Rank(fs[i]) < Rank(fs[j])
    ensures forall i, j :: 0 <= i < j < |Select(c, fs)| ==>
      Rank(Select(c, fs)[i]) < Rank(Select(c, fs)[j])
    ensures forall i :: 0 <= i < |Select(c, fs)| ==> Select(c, fs)[i] in fs
  {
    if fs != [] {
      var tail := Select(c, fs[1..]);
      SelectOrdered(c, fs[1..]);
      forall i | 0 <= i < |tail| ensures Rank(fs[0]) < Rank(tail[i]) {
        var k :| 0 <= k < |fs[1..]| && fs[1..][k] == tail[i];
        assert fs[k + 1] == tail[i];
      }
    }
  }

  lemma SelectCons(c: Config, f: Flag, rest: seq<Flag>)
    ensures Select(c, [f] + rest) == (if Enabled(c, f) then [f] else []) + Select(c, rest)
  {
    assert ([f] + rest)[1..] == rest;
  }

  /** The last four rules: the mandatory flags, then the bare ones. */
  lemma SelectLastFour(c: Config)
    ensures Select(c, [WebServer, DatabaseType, Nodejs, Yarn]) ==
      [WebServer, DatabaseType] +
      (if c.nodejs then [Nodejs] else []) +
      (if c.yarn && c.webServer == "mern" then [Yarn] else [])
  {
    var none: seq<Flag> := [];
    SelectCons(c, Yarn, none);
    SelectCons(c, Nodejs, [Yarn]);
    SelectCons(c, DatabaseType, [Nodejs, Yarn]);
    SelectCons(c, WebServer, [DatabaseType, Nodejs, Yarn]);
    assert [Yarn] + none == [Yarn];
    assert [Nodejs] + [Yarn] == [Nodejs, Yarn];
    assert [DatabaseType] + [Nodejs, Yarn] == [DatabaseType, Nodejs, Yarn];
    assert [WebServer] + [DatabaseType, Nodejs, Yarn] == [WebServer, DatabaseType, Nodejs, Yarn];
  }

  /** The rule table written out: which flags are emitted, in which order. */
  lemma EmittedExactly(c: Config)
    ensures Emitted(c) ==
      (if c.username != "" then [Username] else []) +
      (if c.password != "" then [Password] else []) +
      [WebServer, DatabaseType] +
      (if c.nodejs then [Nodejs] else []) +
      (if c.yarn && c.webServer == "mern" then [Yarn] else [])
  {
    var last: seq<Flag> := [WebServer, DatabaseType, Nodejs, Yarn];
    SelectLastFour(c);
    SelectCons(c, Password, last);
    SelectCons(c, Username, [Password] + last);
    assert FlagOrder == [Username] + ([Password] + last);
  }

  /** A flag is emitted exactly when its condition holds. */
  lemma EmittedIff(c: Config, f: Flag)
    ensures f in Emitted(c) <==> Enabled(c, f)
  {
    SelectMembers(c, FlagOrder, f);
    assert f == FlagOrder[Rank(f)];
  }

  /** Emitted flags appear in FlagOrder order, so none appears twice. */
  lemma EmittedOrdered(c: Config)
    ensures forall i, j :: 0 <= i < j < |Emitted(c)| ==> Rank(Emitted(c)[i]) < Rank(Emitted(c)[j])
  {
    SelectOrdered(c, FlagOrder);
  }

  // ---------------------------------------------------------------------------
  // Reading flags back
  // ---------------------------------------------------------------------------

  /** Every flag text reads back as that flag with its value unchanged. */
  lemma ParseText(c: Config, f: Flag)
    ensures Parse(Text(c, f)) == Some((f, Argument(c, f)))
  {
    var s := Text(c, f);
    match f
    case Username =>
      assert s[|UsernamePrefix|..] == c.username;
    case Password =>
      assert s[2] == 'p';
      assert !(UsernamePrefix <= s) by { assert UsernamePrefix[2] == 'u'; }
      assert PasswordPrefix <= s;
      assert s[|PasswordPrefix|..|s| - 1] == c.password;
    case WebServer =>
      assert s[2] == 'w';
      assert !(UsernamePrefix <= s) by { assert UsernamePrefix[2] == 'u'; }
      assert !(PasswordPrefix <= s) by { assert PasswordPrefix[2] == 'p'; }
      assert s[|WebServerPrefix|..] == c.webServer;
    case DatabaseType =>
      assert s[2] == 'd';
      assert !(UsernamePrefix <= s) by { assert UsernamePrefix[2] == 'u'; }
      assert !(PasswordPrefix <= s) by { assert PasswordPrefix[2] == 'p'; }
      assert !(WebServerPrefix <= s) by { assert WebServerPrefix[2] == 'w'; }
      assert s[|DatabasePrefix|..] == c.databaseType;
    case Nodejs =>
      assert s[2] == 'n';
      assert !(UsernamePrefix <= s) by { assert UsernamePrefix[2] == 'u'; }
      assert !(PasswordPrefix <= s) by { assert PasswordPrefix[2] == 'p'; }
      assert !(WebServerPrefix <= s) by { assert WebServerPrefix[2] == 'w'; }
      assert !(DatabasePrefix <= s) by { assert DatabasePrefix[2] == 'd'; }
    case Yarn =>
      assert s[2] == 'y';
      assert !(UsernamePrefix <= s) by { assert UsernamePrefix[2] == 'u'; }
      assert !(PasswordPrefix <= s) by { assert PasswordPrefix[2] == 'p'; }
      assert !(WebServerPrefix <= s) by { assert WebServerPrefix[2] == 'w'; }
      assert !(DatabasePrefix <= s) by { assert DatabasePrefix[2] == 'd'; }
      assert s != NodejsFlag by { assert NodejsFlag[2] == 'n'; }
  }

  /** Position by position, the flag list reads back as the emitted flags and their values. */
  lemma ParseFlags(c: Config)
    ensures |Flags(c)| == |Emitted(c)|
    ensures forall i :: 0 <= i < |Flags(c)| ==>
      Parse(Flags(c)[i]) == Some((Emitted(c)[i], Argument(c, Emitted(c)[i])))
  {
    forall i | 0 <= i < |Flags(c)|
      ensures Parse(Flags(c)[i]) == Some((Emitted(c)[i], Argument(c, Emitted(c)[i])))
    {
      ParseText(c, Emitted(c)[i]);
    }
  }

  /** The text of an emitted flag of kind `f` is in the list, and is the only one of that kind. */
  lemma FlagOfKind(c: Config, f: Flag)
    ensures Text(c, f) in Flags(c) <==> Enabled(c, f)
    ensures forall i :: 0 <= i < |Flags(c)| && KindOf(Flags(c)[i]) == Some(f) ==>
      Flags(c)[i] == Text(c, f)
  {
    ParseFlags(c);
    EmittedIff(c, f);
    if Text(c, f) in Flags(c) {
      var i :| 0 <= i < |Flags(c)| && Flags(c)[i] == Text(c, f);
      ParseText(c, f);
      assert Emitted(c)[i] == f;
    }
    if Enabled(c, f) {
      var i :| 0 <= i < |Emitted(c)| && Emitted(c)[i] == f;
      assert Flags(c)[i] == Text(c, f);
    }
  }

  // ---------------------------------------------------------------------------
  // The properties of the flag list
  // ---------------------------------------------------------------------------

  /**
   * `--yarn` is in the list exactly when yarn is chosen and the web server is
   * MERN: a stale yarn choice under another web server emits nothing.
   */
  lemma YarnOnlyWithMern(c: Config)
    ensures YarnFlag in Flags(c) <==> c.yarn && c.webServer == "mern"
  {
    FlagOfKind(c, Yarn);
  }

  /** `--nodejs` is in the list exactly when Node.js is chosen. */
  lemma NodejsIffChosen(c: Config)
    ensures NodejsFlag in Flags(c) <==> c.nodejs
  {
    FlagOfKind(c, Nodejs);
  }

  /**
   * `--username <u>` is in the list exactly when the username is non-empty;
   * every username flag carries the username verbatim.
   */
  lemma UsernameFlag(c: Config)
    ensures UsernamePrefix + c.username in Flags(c) <==> c.username != ""
    ensures forall s :: s in Flags(c) && KindOf(s) == Some(Username) ==>
      Parse(s) == Some((Username, c.username))
  {
    FlagOfKind(c, Username);
    ParseText(c, Username);
  }

  /**
   * `--password '<p>'` is in the list exactly when the password is non-empty;
   * every password flag carries the password verbatim between single quotes.
   */
  lemma PasswordFlag(c: Config)
    ensures PasswordPrefix + c.password + "'" in Flags(c) <==> c.password != ""
    ensures forall s :: s in Flags(c) && KindOf(s) == Some(Password) ==>
      Parse(s) == Some((Password, c.password))
  {
    FlagOfKind(c, Password);
    ParseText(c, Password);
  }

  /**
   * There is exactly one `--web-server` flag and exactly one
   * `--database-type` flag, carrying the chosen values.
   */
  lemma MandatoryFlagsOnce(c: Config)
    ensures exists i :: (0 <= i < |Flags(c)| && Flags(c)[i] == WebServerPrefix + c.webServer &&
      forall j :: 0 <= j < |Flags(c)| && KindOf(Flags(c)[j]) == Some(WebServer) ==> j == i)
    ensures exists i :: (0 <= i < |Flags(c)| && Flags(c)[i] == DatabasePrefix + c.databaseType &&
      forall j :: 0 <= j < |Flags(c)| && KindOf(Flags(c)[j]) == Some(DatabaseType) ==> j == i)
  {
    ParseFlags(c);
    EmittedOrdered(c);
    EmittedIff(c, WebServer);
    EmittedIff(c, DatabaseType);
    var w :| 0 <= w < |Emitted(c)| && Emitted(c)[w] == WebServer;
    var d :| 0 <= d < |Emitted(c)| && Emitted(c)[d] == DatabaseType;
    assert Flags(c)[w] == WebServerPrefix + c.webServer;
    assert Flags(c)[d] == DatabasePrefix + c.databaseType;
  }

  /**
   * The order is fixed: username, password, web server, database, Node.js,
   * yarn, each present or not.
   */
  lemma FlagOrderStable(c: Config)
    ensures forall i :: 0 <= i < |Flags(c)| ==> KindOf(Flags(c)[i]).Some?
    ensures forall i, j :: 0 <= i < j < |Flags(c)| ==>
      Rank(KindOf(Flags(c)[i]).value) < Rank(KindOf(Flags(c)[j]).value)
  {
    ParseFlags(c);
    EmittedOrdered(c);
  }

  /** Two mandatory flags plus one for each optional flag that is on. */
  lemma FlagCount(c: Config)
    ensures |Flags(c)| == 2 +
      (if c.username != "" then 1 else 0) +
      (if c.password != "" then 1 else 0) +
      (if c.nodejs then 1 else 0) +
      (if c.yarn && c.webServer == "mern" then 1 else 0)
  {
    EmittedExactly(c);
  }

  // ---------------------------------------------------------------------------
  // The init command line
  // ---------------------------------------------------------------------------

  /** The invocation of the downloaded tool, up to its flags. */
  const InitPrefix := "/usr/local/bin/tenbyte-cloud-init init "

  /** The init command line for `c`: the prefix and the flags joined by single spaces. */
  function InitCommand(c: Config): (r: string)
    ensures InitPrefix <= r
    ensures |InitPrefix| + 2 <= |r| && r[|InitPrefix|..|InitPrefix| + 2] == "--"
  {
    var flags := Join(Flags(c), " ");
    assert flags[..2] == Flags(c)[0][..2];
    InitPrefix + flags
  }

  /** The default state gives exactly the two mandatory flags. */
  lemma DefaultInitCommand()
    ensures InitCommand(Default) == InitPrefix + "--web-server nginx --database-type mysql"
  {
    var w, d := WebServerPrefix + "nginx", DatabasePrefix + "mysql";
    assert Emitted(Default) == [WebServer, DatabaseType] by { EmittedExactly(Default); }
    calc {
      InitCommand(Default);
      InitPrefix + Join([w, d], " ");
      { JoinTwo(w, d); }
      InitPrefix + (w + " " + d);
      { DefaultSpelledOut(); }
      InitPrefix + "--web-server nginx --database-type mysql";
    }
  }

  lemma DefaultSpelledOut()
    ensures (WebServerPrefix + "nginx") + " " + (DatabasePrefix + "mysql") ==
      "--web-server nginx --database-type mysql"
  {
  }

  /** The default state is well formed: its choices are the first entry of each catalog. */
  lemma DefaultIsWellFormed()
    ensures WellFormed(Default)
  {
    assert Catalog.Values(Catalog.WebServers)[0] == "nginx";
    assert Catalog.Values(Catalog.Databases)[0] == "mysql";
  }

  /** The flag texts used by the two examples below, spelled out. */
  lemma ExampleSpellings()
    ensures UsernamePrefix + "admin --yarn" == "--username admin --yarn"
    ensures PasswordPrefix + "it's" + "'" == "--password 'it's'"
    ensures WebServerPrefix + "nginx" == "--web-server nginx"
    ensures DatabasePrefix + "mysql" == "--database-type mysql"
  {
  }

  /**
   * Usernames are not escaped: a username holding ` --yarn` puts `--yarn`
   * into the command line although the flag list has no yarn flag.
   */
  lemma UsernameIsNotEscaped()
    ensures var c := Config("admin --yarn", "", "nginx", "mysql", false, true);
      YarnFlag !in Flags(c) &&
      Flags(c) == ["--username admin --yarn", "--web-server nginx", "--database-type mysql"] &&
      InitCommand(c) ==
        InitPrefix + ("--username admin --yarn" + " " + "--web-server nginx" + " " + "--database-type mysql")
  {
    var c := Config("admin --yarn", "", "nginx", "mysql", false, true);
    YarnOnlyWithMern(c);
    InjectedFlags(c);
    JoinThree("--username admin --yarn", "--web-server nginx", "--database-type mysql");
  }

  lemma InjectedFlags(c: Config)
    requires c == Config("admin --yarn", "", "nginx", "mysql", false, true)
    ensures Flags(c) == ["--username admin --yarn", "--web-server nginx", "--database-type mysql"]
  {
    var texts := [Text(c, Username), Text(c, WebServer), Text(c, DatabaseType)];
    assert Flags(c) == texts by {
      assert Emitted(c) == [Username, WebServer, DatabaseType] by { EmittedExactly(c); }
    }
    assert texts == ["--username admin --yarn", "--web-server nginx", "--database-type mysql"] by {
      ExampleSpellings();
    }
  }

  /** A single quote in the password is not escaped: the quoted word ends early. */
  lemma PasswordQuoteIsNotEscaped()
    ensures var c := Config("", "it's", "nginx", "mysql", false, false);
      Flags(c) == ["--password 'it's'", "--web-server nginx", "--database-type mysql"] &&
      InitCommand(c) ==
        InitPrefix + ("--password 'it's'" + " " + "--web-server nginx" + " " + "--database-type mysql")
  {
    var c := Config("", "it's", "nginx", "mysql", false, false);
    QuotedFlags(c);
    JoinThree("--password 'it's'", "--web-server nginx", "--database-type mysql");
  }

  lemma QuotedFlags(c: Config)
    requires c == Config("", "it's", "nginx", "mysql", false, false)
    ensures Flags(c) == ["--password 'it's'", "--web-server nginx", "--database-type mysql"]
  {
    var texts := [Text(c, Password), Text(c, WebServer), Text(c, DatabaseType)];
    assert Flags(c) == texts by {
      assert Emitted(c) == [Password, WebServer, DatabaseType] by { EmittedExactly(c); }
    }
    assert texts == ["--password 'it's'", "--web-server nginx", "--database-type mysql"] by {
      ExampleSpellings();
    }
  }
}
