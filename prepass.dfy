/** The configuration pre-pass of `main`: for each app in declaration order, its `Name` and then
    its `Data` are rendered (with no app scope) and stored back into the shared apps array, so
    every later render sees the apps already resolved. */
module PrePass {
  import opened Strings
  import opened Entities
  import opened Resolve

  /** One loop iteration for app `k` on the configuration as it stands: `Name` is rendered
      first and stored, then `Data` is rendered against the configuration holding the new
      `Name`. Both render the app's values as they were when the iteration began. */
  function ResolveApp(c: Configuration, k: nat, render: Renderer): Configuration
    requires k < |c.apps|
  {
    var v := c.apps[k];
    var named := c.(apps := c.apps[k := v.(name := Parse(v.name, c, "", render))]);
    named.(apps := named.apps[k := named.apps[k].(data := Parse(v.data, named, "", render))])
  }

  /** The configuration after the first `k` iterations. */
  function ResolvedUpTo(c: Configuration, k: nat, render: Renderer): (r: Configuration)
    requires k <= |c.apps|
    ensures |r.apps| == |c.apps|
    decreases k
  {
    if k == 0 then c else ResolveApp(ResolvedUpTo(c, k - 1, render), k - 1, render)
  }

  /** The configuration after the whole pre-pass. */
  function PrePassed(c: Configuration, render: Renderer): Configuration {
    ResolvedUpTo(c, |c.apps|, render)
  }

  /** The decoded configuration as `main` holds it: a struct whose `Apps` slice shares one
      array, so the assignments `c.Apps[k].Name = ...` are visible to every later `parse`. */
  class Config {
    const apps: array<App>
    const env: string
    const id: string
    const playbooks: seq<Playbook>
    const servers: seq<Server>

    /** The value a template is executed against: the struct with the array's current contents. */
    function Value(): Configuration
      reads apps
    {
      Configuration(apps[..], env, id, playbooks, servers)
    }

    constructor (doc: Configuration)
      ensures fresh(apps)
      ensures Value() == doc
    {
      apps := new App[|doc.apps|](i requires 0 <= i < |doc.apps| => doc.apps[i]);
      env, id, playbooks, servers := doc.env, doc.id, doc.playbooks, doc.servers;
      new;
      assert apps[..] == doc.apps;
    }

    /** The loop `for k, v := range c.Apps { c.Apps[k].Name = ...; c.Apps[k].Data = ... }`. */
    method ResolveApps(render: Renderer)
      modifies apps
      ensures Value() == PrePassed(old(Value()), render)
    {
      ghost var start := Value();
      for k := 0 to apps.Length
        invariant Value() == ResolvedUpTo(start, k, render)
      {
        ResolveOne(k, render);
      }
    }

    /** The body of that loop for app `k`: `v` is the copy `range` made of the element. */
    method ResolveOne(k: nat, render: Renderer)
      requires k < apps.Length
      modifies apps
      ensures Value() == ResolveApp(old(Value()), k, render)
    {
      var v := apps[k];
      var name := Parse(v.name, Value(), "", render);
      apps[k] := v.(name := name);
      ghost var named := Value();
      assert named.apps == old(Value()).apps[k := v.(name := name)];
      var data := Parse(v.data, Value(), "", render);
      apps[k] := apps[k].(data := data);
      assert Value().apps == named.apps[k := named.apps[k].(data := data)];
    }
  }

  // ---------------------------------------------------------------------------------
  // What the pre-pass changes, and in which order

  /** One iteration changes only the `Name` and `Data` of app `k`. */
  lemma ResolveAppFrame(c: Configuration, k: nat, render: Renderer)
    requires k < |c.apps|
    ensures var r := ResolveApp(c, k, render);
      r == c.(apps := c.apps[k := c.apps[k].(name := r.apps[k].name, data := r.apps[k].data)])
  {
  }

  /** Apart from the `Name` and `Data` of the first `k` apps nothing changes. */
  lemma {:induction false} ResolvedUpToFrame(c: Configuration, k: nat, render: Renderer)
    requires k <= |c.apps|
    ensures var r := ResolvedUpTo(c, k, render);
      r.env == c.env && r.id == c.id && r.playbooks == c.playbooks && r.servers == c.servers
      && (forall j :: 0 <= j < |c.apps| ==>
            r.apps[j] == c.apps[j].(name := r.apps[j].name, data := r.apps[j].data))
      && (forall j :: k <= j < |c.apps| ==> r.apps[j] == c.apps[j])
    decreases k
  {
    if k > 0 {
      var before := ResolvedUpTo(c, k - 1, render);
      var r := ResolvedUpTo(c, k, render);
      ResolvedUpToFrame(c, k - 1, render);
      ResolveAppFrame(before, k - 1, render);
      assert r.apps == before.apps[k - 1 := before.apps[k - 1].(name := r.apps[k - 1].name, data := r.apps[k - 1].data)];
      forall j | 0 <= j < |c.apps|
        ensures r.apps[j] == c.apps[j].(name := r.apps[j].name, data := r.apps[j].data)
      {
        if j != k - 1 {
          assert r.apps[j] == before.apps[j];
        }
      }
    }
  }

  /** The pre-pass keeps the number of apps and every field except each app's `Name` and
      `Data`, and leaves `Playbooks`, `Servers`, `Env` and `Id` alone. */
  lemma PrePassFrame(c: Configuration, render: Renderer)
    ensures var r := PrePassed(c, render);
      |r.apps| == |c.apps|
      && r.env == c.env && r.id == c.id && r.playbooks == c.playbooks && r.servers == c.servers
      && forall j :: 0 <= j < |c.apps| ==>
           r.apps[j] == c.apps[j].(name := r.apps[j].name, data := r.apps[j].data)
  {
    ResolvedUpToFrame(c, |c.apps|, render);
  }

  /** Once app `j` has been resolved, later iterations leave it alone. */
  lemma {:induction false} ResolvedStays(c: Configuration, k: nat, n: nat, render: Renderer)
    requires k <= n <= |c.apps|
    ensures ResolvedUpTo(c, n, render).apps[..k] == ResolvedUpTo(c, k, render).apps[..k]
    decreases n
  {
    if n > k {
      ResolvedStays(c, k, n - 1, render);
    }
  }

  /** The order of the renders: app `k`'s `Name` is rendered from its original `Name` against
      the configuration whose apps `0..k-1` are already resolved and the rest original; its
      `Data` from its original `Data` against that configuration with app `k`'s new `Name`. */
  lemma PrePassOrder(c: Configuration, render: Renderer, k: nat)
    requires k < |c.apps|
    ensures var r := PrePassed(c, render);
      var seen := c.(apps := r.apps[..k] + c.apps[k..]);
      |r.apps| == |c.apps|
      && r.apps[k].name == render(c.apps[k].name, seen)
      && r.apps[k].data == render(c.apps[k].data, seen.(apps := seen.apps[k := c.apps[k].(name := r.apps[k].name)]))
  {
    var r := PrePassed(c, render);
    var before := ResolvedUpTo(c, k, render);
    ResolvedUpToFrame(c, k, render);
    ResolvedStays(c, k, |c.apps|, render);
    ResolvedStays(c, k + 1, |c.apps|, render);
    assert before.apps == r.apps[..k] + c.apps[k..];
    assert before == c.(apps := r.apps[..k] + c.apps[k..]);
    assert r.apps[k] == ResolvedUpTo(c, k + 1, render).apps[..k + 1][k];
  }

  /** Running the pre-pass again changes nothing when rendering leaves text without `{{` as it
      is and the first pass left no `{{` in any `Name` or `Data`. */
  lemma PrePassIdempotent(c: Configuration, render: Renderer)
    requires forall s: string, d: Configuration :: !Contains(s, "{{") ==> render(s, d) == s
    requires var r := PrePassed(c, render);
      forall j :: 0 <= j < |r.apps| ==> !Contains(r.apps[j].name, "{{") && !Contains(r.apps[j].data, "{{")
    ensures PrePassed(PrePassed(c, render), render) == PrePassed(c, render)
  {
    var r := PrePassed(c, render);
    FixedUpTo(r, |r.apps|, render);
  }

  lemma {:induction false} FixedUpTo(r: Configuration, k: nat, render: Renderer)
    requires k <= |r.apps|
    requires forall s: string, d: Configuration :: !Contains(s, "{{") ==> render(s, d) == s
    requires forall j :: 0 <= j < |r.apps| ==> !Contains(r.apps[j].name, "{{") && !Contains(r.apps[j].data, "{{")
    ensures ResolvedUpTo(r, k, render) == r
    decreases k
  {
    if k > 0 {
      FixedUpTo(r, k - 1, render);
      var v := r.apps[k - 1];
      assert Parse(v.name, r, "", render) == v.name;
      assert r.apps[k - 1 := v.(name := v.name)] == r.apps;
      assert Parse(v.data, r, "", render) == v.data;
      assert r.apps[k - 1 := v.(data := v.data)] == r.apps;
      assert ResolvedUpTo(r, k, render) == ResolveApp(r, k - 1, render);
    }
  }
}
