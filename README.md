# hipops in Dafny

`hipops` reads a deployment configuration and turns it into `ansible-playbook` runs. The
configuration holds apps, servers and playbooks, and any string in it may be a Go
`text/template`. This project models the core of `hipops.go`, the whole program's logic:

- **`format`, the scope rewriter** (module `Scope`). It first sanitises the app text with two
  `strings.Replace` calls (`{{` becomes `(`, then `}}` becomes `)`). Then it replaces every
  match of the regular expression `({{.App(.&}})*)` with `{{` + app + `${2}`. The pattern is
  modelled exactly as Go's RE2 reads it:
  - the literal `{{`;
  - one character other than a newline;
  - the literal `App`;
  - greedily, any number of repetitions of group 2, which is one non-newline character
    followed by `&}}`.

  The scanner `Rewrite` is checked against a separate description of the pattern's words
  (`InPattern`). `Strings` holds the `strings.Replace` model it uses.
- **`parse`, the resolution wrapper** (module `Resolve`). It rewrites the template only when
  the app is non-empty, then executes it against the configuration. Template execution
  (`text/template`) is a parameter `render` of function type. Every property holds for all
  renderers, with one exception: `PrePass.FixedUpTo` and `PrePass.PrePassIdempotent` assume
  a renderer that returns text without `{{` unchanged.
- **The pre-pass** (module `PrePass`). `main` decodes the configuration into a struct whose
  `Apps` slice shares one array. For each app in order, it renders `Name` and stores it, then
  renders `Data` and stores it. Each render sees every store made before it. The class
  `Config` holds that array, and its method `ResolveApps` is the loop. The loop is proved
  against the function `PrePassed`.
- **The dispatcher** (module `Dispatch`). There is one `ansible-playbook` command per
  playbook, in order, and then `ls -l`. Each command's `-e` argument is the nine `key=value`
  pairs of the `Sprintf` format. The method `DispatchAll` returns the commands it would hand
  to `RunCmd`, and how the loop ends: it panics on `Actions[0]` when a playbook has no
  actions. Module `Payload` gives the `-e` text a structure and a reader, for the round trip.

The code and the design description of the system disagree in three places. The model
follows the code:

- The app is not looked up by name. Its text, sanitised, is spliced in place of `.App`: under
  the app `{{index .Apps 0}}`, `{{.App.Repo}}` becomes `{{(index .Apps 0).Repo}}`.
- The rewrite with an empty app is not the identity. It turns `{{.App.Repo}}` into
  `{{.Repo}}`. Only `parse`'s guard keeps an empty app from being applied.
- The pre-pass is not isolated from its own results. App `k` is rendered against a
  configuration in which apps `0..k-1` are already resolved. Its `Data` is rendered after its
  own `Name` has been replaced.

## Model

| member | source | states |
|---|---|---|
| Entities.Configuration | hipops.go:19-25 | the root document: its apps, environment, id, playbooks and servers, in declaration order |
| Entities.App | hipops.go:26-38 | one app, with its eleven fields |
| Entities.Server | hipops.go:40-44 | a server: the names of its apps, its role and its type |
| Entities.Playbook | hipops.go:45-52 | a playbook: its actions, app, inventory, name, play and state |
| Entities.DockerAction | hipops.go:53-56 | an action: image and params |
| Strings.ReplaceAll | hipops.go:105-106 | `strings.Replace(s, old, new, -1)`: scanning left to right, each occurrence of the pattern that does not overlap one already replaced is replaced, and every other character is copied |
| Strings.ReplaceAllSkips | hipops.go:105-106 | `strings.Replace` copies verbatim a prefix that holds no first character of the pattern |
| Strings.ReplaceAllLeavesNoPair | hipops.go:105-106 | replacing `cc` by a different character leaves no two adjacent `c`s in the result |
| Strings.ReplaceAllKeepsNoPair | hipops.go:105-106 | replacing `cc` by `d` creates no pair `aa` of a third character that was absent before |
| Scope.Sanitize | hipops.go:105-106 | the two replacements in order: `{{` becomes `(` first, then `}}` becomes `)` |
| Scope.HeadAt | hipops.go:107 | the fixed head of the pattern starts at index `i`: `{{`, a character other than a newline, then `App` |
| Scope.RepAt | hipops.go:107 | one repetition of group 2 starts at index `i`: a character other than a newline, then `&}}` |
| Scope.Reps | hipops.go:107 | the number of repetitions the greedy star takes from index `i`, all of them inside the text |
| Scope.MatchEnd | hipops.go:107-108 | where a match starting at `i` ends: after the head and every greedy repetition |
| Scope.LastRep | hipops.go:108 | the text `${2}` expands to: the last repetition of group 2, or empty when there is none |
| Scope.Rewrite | hipops.go:108 | `ReplaceAllString`: scan left to right; at a match, write `{{`, the app and `${2}`, then resume after the match; elsewhere, copy one character |
| Scope.Format | hipops.go:104-110 | `format`: sanitise the app, then rewrite every match with it |
| Scope.InPattern | hipops.go:107 | the words of the pattern `{{.App(.&}})*`, defined independently of the scanner |
| Scope.SanitizeClearsBraces | hipops.go:105-106 | after both replacements, the app text contains neither `{{` nor `}}` |
| Scope.SanitizeKeepsPlainApp | hipops.go:105-106 | an app text without braces is spliced in unchanged |
| Scope.SanitizeAction | hipops.go:105-106 | an app written as one action `{{e}}` becomes the parenthesised expression `(e)` |
| Scope.RepsExact | hipops.go:107 | the greedy star takes exactly the repetitions of group 2 that follow, and stops at the first position that is not one |
| Scope.MatchIsLongest | hipops.go:107-108 | each match the scanner takes is a word of the pattern, and no longer prefix of the remaining text is one (leftmost-first with a greedy star) |
| Scope.NoHeadNoMatch | hipops.go:107-108 | where the fixed head `{{` + char + `App` is absent, no word of the pattern starts there, so the scanner is right to copy that character |
| Scope.RewriteCopies | hipops.go:108 | text in which no match starts is copied verbatim into the output, including template actions such as `{{.Name}}` that do not reference the app |
| Scope.RewriteCopiesPlain | hipops.go:108 | in particular, text that holds no `{` is copied verbatim |
| Scope.NoHeadInAction | hipops.go:107 | no match starts inside a template action `{{f}}` whose text has no `{` and does not read `App` from its second character |
| Scope.LastRepIsLast | hipops.go:108 | when a match has repetitions, `${2}` is the four characters just before the match's end; they are themselves a repetition, and no repetition follows them |
| Scope.FormatKeepsLastRepetition | hipops.go:107-108 | `{{.Appa&}}b&}}` under the app `X` becomes `{{Xb&}}`: only the last repetition survives |
| Scope.FormatKeepsOtherActions | hipops.go:104-110 | an action that does not reference the app, such as `{{.Name}}`, is kept as written, and the reference after it is rewritten: `{{.Name}}-{{.App.Repo}}` becomes `{{.Name}}-{{<app>.Repo}}` |
| Scope.RewriteWithoutOpen | hipops.go:108 | a text without two adjacent `{` comes out of the replacement unchanged, whatever the app |
| Scope.FormatWithoutOpen | hipops.go:104-110 | `format` is the identity on input that does not contain `{{` |
| Scope.FormatSimpleReference | hipops.go:104-110 | `{{.App<tail>}}`, where the tail has no `{` or `&`, becomes `{{` + sanitised app + tail + `}}`: the `.App` is replaced and the tail is kept |
| Scope.FormatScopesReference | hipops.go:104-110 | under an app `{{e}}`, a reference `{{.App<tail>}}` becomes `{{(e)<tail>}}` |
| Scope.FormatExample | hipops.go:104-110 | `{{.App.Repo}}` under the app `{{index .Apps 0}}` becomes `{{(index .Apps 0).Repo}}` |
| Scope.FormatEmptyAppStripsScope | hipops.go:104-110 | with an empty app, `format` turns `{{.App.Repo}}` into `{{.Repo}}`, so it is not the identity |
| Scope.FormatRewritesApps | hipops.go:107-108 | the pattern has no field boundary after `App`, so `{{.Apps}}` is rewritten to `{{<app>s}}` too |
| Resolve.Parse | hipops.go:111-120 | `parse`: rewrite the template with the app only when the app is non-empty, then execute it against the configuration |
| Resolve.ParseGuardsEmptyApp | hipops.go:113-115 | the guard matters: with an empty app, `parse` executes `{{.App.Repo}}` unchanged, although `format` would have changed it |
| Resolve.ParseIgnoresScopeOnPlainText | hipops.go:111-120 | text without `{{` is executed as written, whatever the app |
| Resolve.ParseAppField | hipops.go:92-95 | each fixed template `{{.App.<field>}}` executes as `{{<sanitised app>.<field>}}` under a non-empty app, and unchanged under an empty one |
| PrePass.ResolveApp | hipops.go:75-76 | one iteration for app `k`: `Name` is rendered from its value at the start of the iteration and stored; then `Data`, also from its value at the start, is rendered against the configuration holding the new `Name`, and stored |
| PrePass.PrePassed | hipops.go:74-77 | the whole pre-pass: every app's iteration, in declaration order |
| PrePass.ResolvedUpTo | hipops.go:74-77 | the first `k` iterations of the pre-pass keep the number of apps |
| PrePass.Config.constructor | hipops.go:71-73 | the decoded configuration is held with its apps in one shared array |
| PrePass.Config.Value | hipops.go:75-76 | the value a template is executed against: the struct with the shared array's current contents |
| PrePass.Config.ResolveOne | hipops.go:75-76 | one iteration: `Name` is rendered from the range copy and stored, then `Data` is rendered against the configuration holding that new `Name` |
| PrePass.Config.ResolveApps | hipops.go:74-77 | after the loop, the configuration is the pre-pass `PrePassed` of the one before it |
| PrePass.ResolveAppFrame | hipops.go:75-76 | one iteration changes only the `Name` and `Data` of app `k` |
| PrePass.ResolvedUpToFrame | hipops.go:74-77 | after `k` iterations, only the `Name` and `Data` of apps `0..k-1` have changed, and apps `k..` are untouched |
| PrePass.PrePassFrame | hipops.go:74-77 | the pre-pass keeps the app count, every app field except `Name` and `Data`, and `Env`, `Id`, `Playbooks` and `Servers` |
| PrePass.ResolvedStays | hipops.go:74-77 | once apps `0..k-1` are resolved, later iterations leave them alone |
| PrePass.PrePassOrder | hipops.go:74-77 | app `k`'s `Name` is rendered against apps `0..k-1` resolved and the rest original; its `Data` is rendered against that configuration with its own new `Name` |
| PrePass.FixedUpTo | hipops.go:74-77 | iterations over a configuration whose names and data hold no `{{` change nothing, when rendering leaves such text as it is |
| PrePass.PrePassIdempotent | hipops.go:74-77 | under that condition, a second pre-pass changes nothing |
| Dispatch.ExtraVars | hipops.go:86-96 | the `-e` text, as the `Sprintf` format writes it |
| Dispatch.ExtraVarsFields | hipops.go:86-96 | the same nine pairs as structured fields, in the order of the format |
| Dispatch.PlaybookCommand | hipops.go:82-98 | the `ansible-playbook` command for one playbook. Inventory, name, image and params are rendered under the playbook's app. The state is inserted as written. Repo, ssh key, branch and path render the four fixed `{{.App.<field>}}` templates under the app |
| Dispatch.PayloadFields | hipops.go:87-95 | the nine pairs of one playbook's payload, each rendered as the command renders it |
| Dispatch.Dispatched | hipops.go:78-102 | the commands the dispatch loop starts and how it ends: one command per playbook, in order, up to the first playbook without actions, where it panics; otherwise all of them, followed by `ls -l` |
| Dispatch.DispatchAll | hipops.go:78-102 | one `ansible-playbook` command per playbook, in order, then `ls -l`; a playbook without actions stops the loop with a panic, after the commands before it |
| Dispatch.Run | hipops.go:74-102 | `main` after decoding: the commands are those of the dispatch loop over the pre-passed configuration |
| Dispatch.PlaybookCommandPayload | hipops.go:82-98 | the arguments are the play path, hosts and key in their slots. When the rendered values hold no `"` and no space (except `params`), the `-e` argument reads back as exactly the nine rendered pairs, with `state` as the playbook wrote it |
| Dispatch.OnlyFirstActionConsulted | hipops.go:89-91 | playbooks that differ only in actions after the first give the same command |
| Dispatch.ExtraVarsEncodesFields | hipops.go:86-96 | the format writes exactly the nine pairs inventory, name, image, state, params (quoted), repo, sshKey, branch and path, in that order, joined by single spaces |
| Dispatch.ExtraVarsRoundTrip | hipops.go:86-96 | when no value except params holds a space and no value holds `"`, the payload reads back as the nine pairs in order |
| Dispatch.ExtraVarsAmbiguous | hipops.go:86-88 | values are not escaped: two different inventory/name pairs can give the same payload |
| Payload.Encode | hipops.go:86 | a list of `key=value` pairs joined by single spaces, a quoted value written between double quotes |
| Payload.Decode | hipops.go:86 | the reader of such a list: a key runs to the first `=`; a quoted value runs to the next `"`, and any other value to the next space |
| Payload.RoundTrip | hipops.go:86 | a non-empty list of `key=value` pairs, with no `=` in a key, no `"` in a value and no space in an unquoted value, reads back as itself |

## Left out

- `text/template` is not modelled. Parsing and executing a template is the parameter
  `render`, a total function that returns whatever text the execution wrote. That captures
  execution errors, which `parse` ignores. It does not capture parse errors. When
  `t.Parse` fails (hipops.go:116), `t` becomes nil, and `t.Execute` (hipops.go:118)
  dereferences it, so the program panics. The model assumes that every template parses.
  An example of one that does not: under a playbook app that is a plain name such as
  `web1`, `{{.App.Repo}}` is rewritten to `{{web1.Repo}}`, which does not parse. For such
  configurations the real program crashes, whereas `Dispatch.Run` reports the outcome
  `Completed`.
- `RunCmd` is not modelled beyond its arguments. The model records the program name and
  argument list of each command. Starting the process, the stdout/stderr pipes, the copying
  goroutines and `Wait` are left out, as are the `log.Fatal` calls when one of them fails.
- Flag parsing, the usage check on `-h`, reading the configuration file and JSON decoding
  are left out. The decoded configuration, the hosts, the private key and the playbooks path
  are inputs. `check` and its `log.Fatalf` are part of that glue.
- `evaluate` is not modelled. It only prints the configuration's fields and is never called.
- `fmt.Println(flPlaybooks)` is not modelled, because it is output only.
- Scope.Format: requires the app to hold no `$`. Go's `ReplaceAllString` would expand
  `$name` and `${n}` references in the app text, and that expansion is not modelled.
- Resolve.Parse: carries the same no-`$` requirement on a non-empty app.
- Dispatch.DispatchAll: requires every playbook's app to be free of `$`, for the same reason.
- Dispatch.Run: requires every playbook's app to be free of `$`, for the same reason.
- Text is a sequence of characters, not of UTF-8 bytes, so the way the regular expression
  treats invalid UTF-8 is not modelled.
- A panic on `Actions[0]` is recorded as the outcome `Panicked`. The Go runtime's stack
  trace and exit status are not modelled.
