/** The playbook dispatcher of `main`: after the pre-pass, one `ansible-playbook` command per
    playbook, in declaration order, then one `ls -l`. The model records each command handed to
    `RunCmd` (its program name and argument list) instead of starting a process. */
module Dispatch {
  import opened Strings
  import opened Entities
  import opened Scope
  import opened Resolve
  import opened PrePass
  import opened Payload

  /** A command handed to `RunCmd`: the program and its arguments. */
  datatype Command = Command(name: string, args: seq<string>)

  /** How the dispatch loop ends: it runs through, or it panics on `v.Actions[0]` for a
      playbook without actions, after the commands of the playbooks before it were started. */
  datatype Outcome = Completed | Panicked

  /** The four fixed app-field templates the dispatcher renders for every playbook. */
  const RepoTemplate := "{{.App.Repo}}"
  const SshKeyTemplate := "{{.App.SshKey}}"
  const BranchTemplate := "{{.App.Branch}}"
  const DataTemplate := "{{.App.Data}}"

  /** The last command of `main`. */
  const ListCommand := Command("ls", ["-l"])

  /** Every playbook's app is free of `$`, which the rewrite would otherwise expand. */
  predicate AppsWithoutDollar(c: Configuration) {
    forall j :: 0 <= j < |c.playbooks| ==> '$' !in c.playbooks[j].app
  }

  /** The `-e` argument, as the `Sprintf` format writes it: nine `key=value` pairs in a fixed
      order, the `params` value between double quotes, nothing escaped. */
  function ExtraVars(inventory: string, name: string, image: string, state: string, params: string,
                     repo: string, sshKey: string, branch: string, path: string): string
  {
    "inventory=" + inventory + " name=" + name + " image=" + image + " state=" + state
    + " params=\"" + params + "\"" + " repo=" + repo + " sshKey=" + sshKey
    + " branch=" + branch + " path=" + path
  }

  /** The same nine pairs as structured fields, in the order of the format. */
  function ExtraVarsFields(inventory: string, name: string, image: string, state: string, params: string,
                           repo: string, sshKey: string, branch: string, path: string): seq<Field>
  {
    [Field("inventory", inventory, false), Field("name", name, false), Field("image", image, false),
     Field("state", state, false), Field("params", params, true), Field("repo", repo, false),
     Field("sshKey", sshKey, false), Field("branch", branch, false), Field("path", path, false)]
  }

  /** The `ansible-playbook` invocation for playbook `v`: the play file under the playbooks
      directory, the hosts, the private key, the `-e` pairs and the verbosity flag. Inventory,
      name, image and params are rendered under `v`'s app; the state is inserted as written;
      repo, ssh key, branch and path render the fixed templates `{{.App.Repo}}`,
      `{{.App.SshKey}}`, `{{.App.Branch}}` and `{{.App.Data}}` under `v`'s app. */
  function PlaybookCommand(c: Configuration, v: Playbook, hosts: string, key: string,
                           playbooksPath: string, render: Renderer): Command
    requires |v.actions| > 0 && '$' !in v.app
  {
    Command("ansible-playbook",
      [playbooksPath + v.play,
       "-i", hosts,
       "--private-key", key,
       "-e", ExtraVars(
               Parse(v.inventory, c, v.app, render),
               Parse(v.name, c, v.app, render),
               Parse(v.actions[0].image, c, v.app, render),
               v.state,
               Parse(v.actions[0].params, c, v.app, render),
               Parse(RepoTemplate, c, v.app, render),
               Parse(SshKeyTemplate, c, v.app, render),
               Parse(BranchTemplate, c, v.app, render),
               Parse(DataTemplate, c, v.app, render)),
       "-vvvvv"])
  }

  /** The commands the dispatch loop hands to `RunCmd` over configuration `c`, and how it ends:
      one playbook command per playbook, in declaration order, up to the first playbook without
      actions (where it panics), else all of them followed by `ls -l`. */
  ghost predicate Dispatched(c: Configuration, hosts: string, key: string, playbooksPath: string,
                             render: Renderer, issued: seq<Command>, outcome: Outcome)
  {
    AppsWithoutDollar(c)
    && (outcome == Completed <==> forall j :: 0 <= j < |c.playbooks| ==> |c.playbooks[j].actions| > 0)
    && (outcome == Completed ==> |issued| == |c.playbooks| + 1 && issued[|c.playbooks|] == ListCommand)
    && (outcome == Panicked ==> |issued| < |c.playbooks| && |c.playbooks[|issued|].actions| == 0)
    && forall j :: 0 <= j < |issued| && j < |c.playbooks| ==>
         |c.playbooks[j].actions| > 0
         && issued[j] == PlaybookCommand(c, c.playbooks[j], hosts, key, playbooksPath, render)
  }

  /** The loop `for _, v := range c.Playbooks { RunCmd("ansible-playbook", ...) }` followed by
      `RunCmd("ls", "-l")`. */
  method DispatchAll(c: Configuration, hosts: string, key: string, playbooksPath: string, render: Renderer)
    returns (issued: seq<Command>, outcome: Outcome)
    requires AppsWithoutDollar(c)
    ensures Dispatched(c, hosts, key, playbooksPath, render, issued, outcome)
  {
    issued := [];
    for i := 0 to |c.playbooks|
      invariant |issued| == i
      invariant forall j :: 0 <= j < i ==>
        |c.playbooks[j].actions| > 0
        && issued[j] == PlaybookCommand(c, c.playbooks[j], hosts, key, playbooksPath, render)
    {
      var v := c.playbooks[i];
      if |v.actions| == 0 {
        outcome := Panicked;
        return;
      }
      issued := issued + [PlaybookCommand(c, v, hosts, key, playbooksPath, render)];
    }
    issued := issued + [ListCommand];
    outcome := Completed;
  }

  /** `main` after decoding: the pre-pass over the shared apps, then the dispatch loop. */
  method Run(doc: Configuration, hosts: string, key: string, playbooksPath: string, render: Renderer)
    returns (issued: seq<Command>, outcome: Outcome)
    requires AppsWithoutDollar(doc)
    ensures Dispatched(PrePassed(doc, render), hosts, key, playbooksPath, render, issued, outcome)
  {
    var config := new Config(doc);
    config.ResolveApps(render);
    PrePassFrame(doc, render);
    issued, outcome := DispatchAll(config.Value(), hosts, key, playbooksPath, render);
  }

  // ---------------------------------------------------------------------------------
  // Properties of one command

  /** The nine pairs of playbook `v`'s payload, each rendered as `PlaybookCommand` renders it. */
  function PayloadFields(c: Configuration, v: Playbook, render: Renderer): seq<Field>
    requires |v.actions| > 0 && '$' !in v.app
  {
    ExtraVarsFields(
      Parse(v.inventory, c, v.app, render), Parse(v.name, c, v.app, render),
      Parse(v.actions[0].image, c, v.app, render), v.state,
      Parse(v.actions[0].params, c, v.app, render),
      Parse(RepoTemplate, c, v.app, render), Parse(SshKeyTemplate, c, v.app, render),
      Parse(BranchTemplate, c, v.app, render), Parse(DataTemplate, c, v.app, render))
  }

  /** The argument list is `[path+play, -i, hosts, --private-key, key, -e, payload, -vvvvv]`,
      and when the rendered values hold no `"` and no space (except `params`), the payload
      reads back as the nine rendered pairs, with `state` exactly as the playbook wrote it. */
  lemma PlaybookCommandPayload(c: Configuration, v: Playbook, hosts: string, key: string,
                               playbooksPath: string, render: Renderer)
    requires |v.actions| > 0 && '$' !in v.app
    requires forall j :: 0 <= j < |PayloadFields(c, v, render)| ==>
      '"' !in PayloadFields(c, v, render)[j].value
      && (j == 4 || ' ' !in PayloadFields(c, v, render)[j].value)
    ensures var cmd := PlaybookCommand(c, v, hosts, key, playbooksPath, render);
      cmd.name == "ansible-playbook" && |cmd.args| == 8
      && cmd.args[0] == playbooksPath + v.play && cmd.args[2] == hosts && cmd.args[4] == key
      && Decode(cmd.args[6]) == Some(PayloadFields(c, v, render))
      && PayloadFields(c, v, render)[3] == Field("state", v.state, false)
  {
    var fs := PayloadFields(c, v, render);
    assert forall j :: 0 <= j < 9 && j != 4 ==> Unspaced(fs[j].value);
    ExtraVarsRoundTrip(fs[0].value, fs[1].value, fs[2].value, fs[3].value, fs[4].value,
                       fs[5].value, fs[6].value, fs[7].value, fs[8].value);
  }

  /** Only `Actions[0]` is consulted: playbooks that differ in later actions give the same command. */
  lemma OnlyFirstActionConsulted(c: Configuration, v: Playbook, w: Playbook, hosts: string, key: string,
                                 playbooksPath: string, render: Renderer)
    requires |v.actions| > 0 && '$' !in v.app
    requires |w.actions| > 0 && w == v.(actions := [v.actions[0]] + w.actions[1..])
    ensures PlaybookCommand(c, v, hosts, key, playbooksPath, render)
         == PlaybookCommand(c, w, hosts, key, playbooksPath, render)
  {
  }

  // ---------------------------------------------------------------------------------
  // The -e payload

  /** The format string writes exactly the nine pairs, in order, joined by spaces. */
  lemma ExtraVarsEncodesFields(inventory: string, name: string, image: string, state: string, params: string,
                               repo: string, sshKey: string, branch: string, path: string)
    ensures ExtraVars(inventory, name, image, state, params, repo, sshKey, branch, path)
         == Encode(ExtraVarsFields(inventory, name, image, state, params, repo, sshKey, branch, path))
  {
    var fs := ExtraVarsFields(inventory, name, image, state, params, repo, sshKey, branch, path);
    var out := "inventory=" + inventory;
    assert fs[..1] == [fs[0]];
    assert Encode(fs[..1]) == out;
    PairStep(fs, 1, out, " name=", "name", name);
    out := out + " name=" + name;
    PairStep(fs, 2, out, " image=", "image", image);
    out := out + " image=" + image;
    PairStep(fs, 3, out, " state=", "state", state);
    out := out + " state=" + state;
    assert Encode(fs[..5]) == Encode(fs[..4]) + " " + EncodeField(fs[4]) by {
      assert fs[..5] == fs[..4] + [fs[4]];
      EncodeSnoc(fs[..4], fs[4]);
    }
    assert Encode(fs[..5]) == out + " params=\"" + params + "\"";
    out := out + " params=\"" + params + "\"";
    PairStep(fs, 5, out, " repo=", "repo", repo);
    out := out + " repo=" + repo;
    PairStep(fs, 6, out, " sshKey=", "sshKey", sshKey);
    out := out + " sshKey=" + sshKey;
    PairStep(fs, 7, out, " branch=", "branch", branch);
    out := out + " branch=" + branch;
    PairStep(fs, 8, out, " path=", "path", path);
    out := out + " path=" + path;
    assert fs[..9] == fs;
  }

  /** One step of the format: appending ` key=value` to the encoding of the first `k` pairs
      gives the encoding of the first `k + 1`. */
  lemma PairStep(fs: seq<Field>, k: nat, out: string, sep: string, key: string, value: string)
    requires 0 < k < |fs| && fs[k] == Field(key, value, false)
    requires Encode(fs[..k]) == out && sep == " " + key + "="
    ensures Encode(fs[..k + 1]) == out + sep + value
  {
    assert fs[..k + 1] == fs[..k] + [fs[k]];
    EncodeSnoc(fs[..k], fs[k]);
  }

  /** A value that needs no quoting: it holds no space and no double quote. */
  predicate Unspaced(x: string) {
    ' ' !in x && '"' !in x
  }

  /** When no value but `params` holds a space and no value holds `"`, the payload reads back as
      the nine pairs in order (including `state` exactly as written). */
  lemma ExtraVarsRoundTrip(inventory: string, name: string, image: string, state: string, params: string,
                           repo: string, sshKey: string, branch: string, path: string)
    requires Unspaced(inventory) && Unspaced(name) && Unspaced(image) && Unspaced(state)
    requires '"' !in params
    requires Unspaced(repo) && Unspaced(sshKey) && Unspaced(branch) && Unspaced(path)
    ensures Decode(ExtraVars(inventory, name, image, state, params, repo, sshKey, branch, path))
         == Some(ExtraVarsFields(inventory, name, image, state, params, repo, sshKey, branch, path))
  {
    var fs := ExtraVarsFields(inventory, name, image, state, params, repo, sshKey, branch, path);
    ExtraVarsEncodesFields(inventory, name, image, state, params, repo, sshKey, branch, path);
    forall j | 0 <= j < |fs| ensures Plain(fs[j]) {
      assert j == 4 || Unspaced(fs[j].value);
    }
    RoundTrip(fs);
  }

  /** Values are not escaped, so a space in a value makes the payload ambiguous: two different
      inventory/name pairs give the same `-e` argument. */
  lemma ExtraVarsAmbiguous(a: string, b: string, rest: string)
    requires a == "a name=b" && b == "b name=c"
    ensures ExtraVars(a, "c", rest, rest, rest, rest, rest, rest, rest)
         == ExtraVars("a", b, rest, rest, rest, rest, rest, rest, rest)
  {
    assert "inventory=" + a + " name=" + "c" == "inventory=" + "a" + " name=" + b;
  }
}
