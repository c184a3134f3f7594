/** The shared store as a value: known users, resources and operations, and what every call does to them. */
module SharedSpec {
  import opened Model

  datatype SharedState = SharedState(
    users: set<string>,
    resources: set<string>,
    operations: map<string, string>)  // operation -> resource

  const NO_SHARED_DATA := SharedState({}, {}, map[])

  datatype SharedCall =
    | EnsureUser(sub: string)
    | CreateResource(name: string)
    | EnsureResource(name: string)
    | DeleteResource(name: string)
    | CreateOperation(name: string, resource: string)
    | EnsureOperation(name: string, resource: string)
    | DeleteOperation(name: string)

  datatype SharedOutcome = SharedOutcome(state: SharedState, err: Error)

  function WithOperation(s: SharedState, name: string, resource: string): SharedState {
    s.(resources := s.resources + {resource}, operations := s.operations[name := resource])
  }

  function WithoutResource(s: SharedState, name: string): SharedState {
    s.(resources := s.resources - {name},
       operations := map op | op in s.operations && s.operations[op] != name :: s.operations[op])
  }

  function SharedStep(s: SharedState, c: SharedCall): SharedOutcome {
    match c
    case EnsureUser(sub) =>
      SharedOutcome(s.(users := s.users + {sub}), Ok)
    case CreateResource(name) =>
      if name in s.resources then SharedOutcome(s, Conflict)
      else SharedOutcome(s.(resources := s.resources + {name}), Ok)
    case EnsureResource(name) =>
      SharedOutcome(s.(resources := s.resources + {name}), Ok)
    case DeleteResource(name) =>
      if name !in s.resources then SharedOutcome(s, NotFound)
      else SharedOutcome(WithoutResource(s, name), Ok)
    case CreateOperation(name, resource) =>
      if name in s.operations then SharedOutcome(s, Conflict)
      else SharedOutcome(WithOperation(s, name, resource), Ok)
    case EnsureOperation(name, resource) =>
      if name in s.operations then SharedOutcome(s, Ok)
      else SharedOutcome(WithOperation(s, name, resource), Ok)
    case DeleteOperation(name) =>
      if name !in s.operations then SharedOutcome(s, NotFound)
      else SharedOutcome(s.(operations := s.operations - {name}), Ok)
  }
}
