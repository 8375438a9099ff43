/** The configuration document: the records that `hipops.go` unmarshals from JSON.
    Every string field may hold `text/template` syntax; only `Server` is never rendered. */
module Entities {

  /** One deployable unit. `Name` and `Data` are resolved by the pre-pass; the other
      string fields stay templates and are rendered per playbook. */
  datatype App = App(
    branch: string,
    config: string,
    data: string,
    host: string,
    image: string,
    name: string,
    repo: string,
    ports: seq<int>,
    start: string,
    sshKey: string,
    typeTag: string)

  /** A host role and the names of the apps it hosts; read-only here. */
  datatype Server = Server(apps: seq<string>, role: string, typeTag: string)

  /** A container action; only the first action of a playbook is consulted. */
  datatype DockerAction = DockerAction(image: string, params: string)

  /** One orchestration unit: a play file run against a target app (empty `app`: no scoping). */
  datatype Playbook = Playbook(
    actions: seq<DockerAction>,
    app: string,
    inventory: string,
    name: string,
    play: string,
    state: string)

  /** The root document and the data every template is executed against. */
  datatype Configuration = Configuration(
    apps: seq<App>,
    env: string,
    id: string,
    playbooks: seq<Playbook>,
    servers: seq<Server>)

  /** `text/template` parse-then-execute of a template text against the configuration,
      returning what the execution wrote to its buffer. It is a foreign library, so the
      model keeps it an arbitrary function and proves every property for all of them. */
  type Renderer = (string, Configuration) -> string
}
