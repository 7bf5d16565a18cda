# Cloud-init generator: configuration compiler

A Dafny model of the configuration compiler inside the `CloudInitGenerator`
documentation widget (`snippets/cloud-init-generator.jsx`). The widget turns a
small form into a `#cloud-config` user-data document. The document downloads
the `tenbyte-cloud-init` tool, runs it with flags taken from the form, and then
enables root SSH login.

The model has five modules:

- `Strings` (`strings.dfy`): `Option`, `Join` (JavaScript's `Array.prototype.join`),
  `Infix` (substring occurrence) and `Utf16Length` (JavaScript's string
  `length`), with lemmas about joining.
- `Catalog` (`catalog.dfy`): the `Descriptor` triple and the two fixed option
  catalogs: four web servers and three databases. `Find` models
  `Array.prototype.find` by value.
- `InitFlags` (`flags.dfy`): the form state as a `Config` value, and the flag list.
  - The list is specified as a rule table. `FlagOrder` holds six flags in order.
  - `Enabled` says when each flag is emitted. `Text` gives its text.
  - `Parse` reads a flag text back. It is the inverse used to show that values are
    inserted verbatim.
  - `InitCommand` is the tool path followed by the space-joined flags.
- `Template` (`template.dfy`): the constant template as a list of lines with one
  hole. `Render` joins the lines with newlines.
  - `Before` and `After` are the constant texts around the hole.
  - `ExtractCommand` reads the command back out of a document.
  - `RunCommands` lists the commands of the `runcmd` entries in order.
- `Generator` (`generator.dfy`):
  - `BuildInitFlags` is the push-by-push construction of `initFlags`. It is proved
    equal to the rule table.
  - `GenerateCloudInit` assembles the whole document.
  - The module also holds the catalog lookups that the form shows and the
    password-length hint, which counts UTF-16 code units as JavaScript does.

Two facts about the program shape the model:

- The template has six `runcmd` entries.
- No value is escaped: the username goes in as typed, and the password goes
  between single quotes with no escaping of an embedded `'`.

## Model

| member | source | states |
|---|---|---|
| Catalog.Find | snippets/cloud-init-generator.jsx:106-107 | `find` by value returns nothing exactly when no entry has the value. Otherwise it returns the first entry whose value matches. |
| Catalog.CatalogsWellFormed | snippets/cloud-init-generator.jsx:10-49 | Both catalogs have pairwise distinct values. The values, in display order, are nginx, apache2, openlitespeed, mern and mysql, mariadb, mongodb. |
| Catalog.FindsOwnEntry | snippets/cloud-init-generator.jsx:106-107 | In a catalog with distinct values, looking up an entry's value returns that same entry. |
| Catalog.FindSucceedsIffListed | snippets/cloud-init-generator.jsx:106-107 | A lookup succeeds exactly for the values the catalog lists. |
| InitFlags.Flags | snippets/cloud-init-generator.jsx:52-68 | `initFlags` is the text of each emitted flag, in rule-table order. It has between 2 and 6 elements, and every element begins with `--`. |
| InitFlags.TextIsOption | snippets/cloud-init-generator.jsx:55-67 | Every flag text the generator pushes is a long option that begins with `--`. |
| InitFlags.EmittedExactly | snippets/cloud-init-generator.jsx:52-68 | The rule table emits, in order: username if non-empty, password if non-empty, web server, database, nodejs if set, and yarn if set with the MERN web server. |
| InitFlags.EmittedIff | snippets/cloud-init-generator.jsx:54-68 | A flag is emitted if and only if its condition holds. |
| InitFlags.EmittedOrdered | snippets/cloud-init-generator.jsx:52-68 | The emitted flags appear strictly in rule-table order, so no flag appears twice. |
| InitFlags.ParseText | snippets/cloud-init-generator.jsx:55-67 | Every flag text reads back as that flag, with its value unchanged. This holds for any value, because nothing is escaped. |
| InitFlags.ParseFlags | snippets/cloud-init-generator.jsx:52-68 | Position by position, the flag list reads back as the emitted flags and their values. |
| InitFlags.FlagOfKind | snippets/cloud-init-generator.jsx:54-68 | A flag's text is in the list exactly when the flag is enabled. Any list element of that kind is that text. |
| InitFlags.YarnOnlyWithMern | snippets/cloud-init-generator.jsx:66-68 | `--yarn` is in the list if and only if yarn is set and the web server is `mern`. A stale yarn choice under another web server emits nothing. |
| InitFlags.NodejsIffChosen | snippets/cloud-init-generator.jsx:63-65 | `--nodejs` is in the list if and only if Node.js is chosen. |
| InitFlags.UsernameFlag | snippets/cloud-init-generator.jsx:54-56 | `--username <u>` is in the list if and only if the username is non-empty. Every username flag carries the username verbatim. |
| InitFlags.PasswordFlag | snippets/cloud-init-generator.jsx:57-59 | `--password '<p>'` is in the list if and only if the password is non-empty. Every password flag carries the password verbatim between single quotes. |
| InitFlags.MandatoryFlagsOnce | snippets/cloud-init-generator.jsx:60-61 | The list holds exactly one `--web-server` flag and exactly one `--database-type` flag. They carry the chosen values. |
| InitFlags.FlagOrderStable | snippets/cloud-init-generator.jsx:52-68 | Every element is a flag, and the kinds run username, password, web server, database, nodejs, yarn, each present or absent. |
| InitFlags.FlagCount | snippets/cloud-init-generator.jsx:52-68 | The list has 2 elements plus one for each optional flag that is on. |
| InitFlags.InitCommand | snippets/cloud-init-generator.jsx:70 | The init command is the tool path `/usr/local/bin/tenbyte-cloud-init init` followed by the flags joined with single spaces. The text right after the path begins with `--`. |
| InitFlags.DefaultInitCommand | snippets/cloud-init-generator.jsx:2-7 | For the initial state, the init command is the tool path followed by `--web-server nginx --database-type mysql`. |
| InitFlags.DefaultIsWellFormed | snippets/cloud-init-generator.jsx:4-5 | The initial choices `nginx` and `mysql` are catalog values. |
| InitFlags.UsernameIsNotEscaped | snippets/cloud-init-generator.jsx:55 | The username `admin --yarn` with the `nginx` web server emits no yarn flag. The command line still contains `--yarn`, because the username is inserted unescaped. |
| InitFlags.PasswordQuoteIsNotEscaped | snippets/cloud-init-generator.jsx:58 | The password `it's` gives `--password 'it's'`. The embedded quote is not escaped. |
| Strings.Join | snippets/cloud-init-generator.jsx:70 | `Array.prototype.join`: the parts in order with the separator between neighbours, and "" for no parts. The first part is a prefix of the result. |
| Strings.Utf16Length | snippets/cloud-init-generator.jsx:142 | JavaScript's `length` counts UTF-16 code units. It lies between the number of characters and twice that number. It equals the number of characters exactly when no character lies outside the Basic Multilingual Plane. |
| Strings.JoinConcat | snippets/cloud-init-generator.jsx:70 | Joining two non-empty lists is joining each of them with one separator in between. |
| Strings.JoinKeepsParts | snippets/cloud-init-generator.jsx:70 | Every part occurs verbatim in the joined text. |
| Template.Render | snippets/cloud-init-generator.jsx:72-91 | The document is the template's lines, with the init command in the hole, joined by newlines and with no trailing newline. It begins with `#cloud-config`. |
| Template.RenderSplits | snippets/cloud-init-generator.jsx:72-91 | The document is the constant text `Before`, then the init command, then the constant text `After`. |
| Template.ExtractRender | snippets/cloud-init-generator.jsx:87 | Reading the hole back out of a rendered document gives the init command unchanged. |
| Template.RenderInjective | snippets/cloud-init-generator.jsx:72-91 | Different init commands give different documents. |
| Template.HeaderCommands | snippets/cloud-init-generator.jsx:80-86 | Before the hole, the `runcmd` entries are housekeeping, then the download, then chmod. |
| Template.FooterCommands | snippets/cloud-init-generator.jsx:89-91 | After the hole, the entries are the PermitRootLogin write, then the ssh restart. |
| Template.RunCommandOrder | snippets/cloud-init-generator.jsx:80-91 | For any init command, the document's `runcmd` entries are exactly these, in order: housekeeping, wget, chmod, the init command, PermitRootLogin, ssh restart. |
| Generator.CloudConfig | snippets/cloud-init-generator.jsx:51-92 | The document generated for a form state. The state's init command reads back out of it unchanged. |
| Generator.BuildInitFlags | snippets/cloud-init-generator.jsx:52-68 | Pushing the flags one by one under the source's conditionals yields exactly the rule table's list. |
| Generator.GenerateCloudInit | snippets/cloud-init-generator.jsx:51-92 | The method gives `CloudConfig` of the state. The document is `Before`, then the prefix `/usr/local/bin/tenbyte-cloud-init init ` followed by the space-joined flags, then `After`. The command reads back from the document unchanged. |
| Generator.OnlyTheCommandVaries | snippets/cloud-init-generator.jsx:72-91 | Two states give the same document exactly when they give the same init command. |
| Generator.FlagsInDocument | snippets/cloud-init-generator.jsx:70-87 | Every flag of the list occurs verbatim in the init command and in the document. |
| Generator.SelectedWebServer | snippets/cloud-init-generator.jsx:106 | `webServers.find` on the chosen value succeeds exactly when the value is listed. It then gives a catalog entry with that value. |
| Generator.SelectedDatabase | snippets/cloud-init-generator.jsx:107 | `databases.find` on the chosen value succeeds exactly when the value is listed. It then gives a catalog entry with that value. |
| Generator.SelectionsFound | snippets/cloud-init-generator.jsx:106-107 | Both lookups succeed exactly when both choices are catalog values. A lookup that succeeds returns a catalog entry with the chosen value. |
| Generator.SelectedWebServerIsEntry | snippets/cloud-init-generator.jsx:106 | Choosing the i-th web server selects exactly the i-th descriptor, so its description is shown. |
| Generator.SelectedDatabaseIsEntry | snippets/cloud-init-generator.jsx:107 | Choosing the i-th database selects exactly the i-th descriptor. |
| Generator.PasswordWarning | snippets/cloud-init-generator.jsx:142 | The hint shows when the password is set and shorter than 8 UTF-16 code units. So it shows only for 1 to 7 characters, and always for 1 to 3. For a password with no character outside the Basic Multilingual Plane, it shows exactly for 1 to 7 characters. |
| Generator.AstralPasswordNotWarned | snippets/cloud-init-generator.jsx:142 | A password of four emoji has four characters but 8 UTF-16 code units, so it draws no hint. |
| Generator.WarnedPasswordStillEmitted | snippets/cloud-init-generator.jsx:142 | A password that draws the short-password hint (`0 < length < 8`) is still emitted quoted, and it reaches the document. The hint does not hold back generation. |

## Left out

- The JSX markup, CSS classes and the input, select and checkbox handlers are not modelled. They are presentation only. This includes the rule that the yarn checkbox is shown only for `mern`. The generator's own `mern` guard is modelled.
- React's `useState` hooks and setters are replaced by an explicit `Config` value that is passed to the compiler.
- `copyToClipboard` is not modelled. It is asynchronous browser I/O: the clipboard promise, the 2-second `copied` timer and `console.error`.
- The downloaded `tenbyte-cloud-init` binary is external. So is the guest's ssh and systemd behaviour. How the tool or the shell splits the command line is not modelled either.
- InitFlags.YarnOnlyWithMern: the "no `--yarn`" half is stated over the flag list, not over the document text. A username or password that contains `--yarn` puts that text into the document, as UsernameIsNotEscaped shows.
- Template.RunCommandOrder: the order is stated over the template's lines before they are joined. An init command that contains a newline would split its own line in the joined text.
- The description text shown under each select, and the `selectedWebServer &&` guard, are presentation. Only the lookup that feeds them is modelled.
