/** Story definitions as the story-language parser hands them to the engine:
    passages, choices and node definitions. They are plain values; nothing in
    the engine mutates them. */
module Story {

  /** An optional field: `None` is a JavaScript property that is `undefined`. */
  datatype Option<+T> = None | Some(value: T)

  /** A value that a passage's `set` patch may write into the game state.
      Numbers are modelled as integers. */
  datatype Value =
    | Null
    | Str(s: string)
    | Num(n: int)
    | Bool(b: bool)
    | Arr(items: seq<Value>)
    | Obj(fields: map<string, Value>)

  /** A predicate maps a keypath to a condition set (operator name -> operand). */
  type Predicate = map<string, map<string, Value>>

  /** One content / side-effect step of a node. The source's `type` field is
      `contentType` here and its `set` field is `patch`; `predicate` fields are `guard`. */
  datatype Passage = Passage(
    passageId: string,
    content: Option<string>,
    contentType: Option<string>,
    patch: Option<map<string, Value>>,
    track: Option<string>,
    guard: Option<Predicate>)

  /** An outgoing edge of a graph node, guarded by an optional predicate. */
  datatype Choice = Choice(nodeId: string, guard: Option<Predicate>)

  /** The definition object a node is built from; every field but the id may
      be absent. */
  datatype NodeData = NodeData(
    nodeId: string,
    passages: Option<seq<Passage>>,
    choices: Option<seq<Choice>>,
    track: Option<string>,
    guard: Option<Predicate>,
    allowRepeats: Option<bool>)
}
