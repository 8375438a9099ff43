/** The resolution wrapper `parse`: optionally scope the template to an app, then parse and
    execute it against the configuration. */
module Resolve {
  import opened Strings
  import opened Entities
  import opened Scope

  /** `parse(input, base, app)`: the rewrite runs only when `app` is non-empty. */
  function Parse(input: string, c: Configuration, app: string, render: Renderer): string
    requires '$' !in app
  {
    render(if app != "" then Format(input, app) else input, c)
  }

  /** The guard matters: the rewrite with an empty app would have turned `{{.App.Repo}}` into
      `{{.Repo}}`, but `parse` executes the reference unchanged. */
  lemma ParseGuardsEmptyApp(input: string, c: Configuration, render: Renderer)
    requires input == "{{.App.Repo}}"
    ensures Parse(input, c, "", render) == render(input, c)
    ensures Format(input, "") != input
  {
    FormatEmptyAppStripsScope(input, "");
    assert |Format(input, "")| == 9;
  }

  /** Text without `{{` is executed as written whatever the app: the scope never changes it. */
  lemma {:induction false} ParseIgnoresScopeOnPlainText(input: string, c: Configuration, app: string, render: Renderer)
    requires '$' !in app
    requires !Contains(input, "{{")
    ensures Parse(input, c, app, render) == render(input, c)
  {
    if app != "" {
      FormatWithoutOpen(input, app);
    }
  }

  /** One of the four fixed app-field templates of the dispatcher, `{{.App.<field>}}`, under
      the playbook's app: with an app it reads `<field>` of the spliced app expression. */
  lemma ParseAppField(field: string, c: Configuration, app: string, render: Renderer)
    requires '$' !in app
    requires '{' !in field && '&' !in field
    ensures app != "" ==>
      Parse("{{.App." + field + "}}", c, app, render) == render("{{" + Sanitize(app) + "." + field + "}}", c)
    ensures app == "" ==>
      Parse("{{.App." + field + "}}", c, app, render) == render("{{.App." + field + "}}", c)
  {
    if app != "" {
      assert "{{.App." + field + "}}" == "{{.App" + ("." + field) + "}}";
      assert '{' !in "." + field && '&' !in "." + field;
      FormatSimpleReference("." + field, app);
      assert "{{" + Sanitize(app) + ("." + field) + "}}" == "{{" + Sanitize(app) + "." + field + "}}";
    }
  }
}
