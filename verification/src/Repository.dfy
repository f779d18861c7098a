/** The items of a workspace, as far as a run reads them. */
module Repository {
  import opened Graph

  type Vars = map<string, string>

  datatype Variable = Variable(key: string, value: string)

  datatype Payload =
    | NoPayload
    | ContextPayload(variables: Option<seq<Variable>>, priority: Option<int>)
    | RoutinePayload(language: string, code: string)

  datatype ItemType = ContextItem | RoutineItem | PipelineItem | OtherItem

  datatype Item = Item(id: string, name: string, kind: ItemType, payload: Payload)
}
