/** Messages, as values: what a node receives, tells and hands to end callbacks. */
module Messages {

  const SUCCESS := "Success"
  const FAILURE := "Failure"
  const TRUE := "True"

  datatype Option<+T> = None | Some(value: T)

  datatype DataType = JSON | TEXT | BINARY

  datatype RuleMsg = RuleMsg(
    ts: int, id: string, dataType: DataType, kind: string, data: string,
    metadata: map<string, string>)

  /** A node of some chain: node ids are unique within one chain only. */
  datatype NodeRef = NodeRef(chain: string, id: string)

  /** One call of an end callback. */
  datatype End = End(node: NodeRef, msg: RuleMsg, err: Option<string>, relation: string)

  datatype WrapperMsg = WrapperMsg(msg: RuleMsg, err: string, nodeId: string)

  /** Putting every entry of `extra` into `md`: an empty key is never put. */
  function PutAll(md: map<string, string>, extra: map<string, string>): map<string, string>
  {
    md + (extra - {""})
  }

  function WrapperOf(e: End): WrapperMsg
  {
    WrapperMsg(e.msg, match e.err case None => "" case Some(text) => text, e.node.id)
  }

  function WrapperList(ends: seq<End>): seq<WrapperMsg>
  {
    if ends == [] then [] else WrapperList(ends[..|ends| - 1]) + [WrapperOf(ends[|ends| - 1])]
  }

  /** Metadata gathered by a flow node: branches that ended without an error, in arrival order. */
  function GatherMetadata(md: map<string, string>, ends: seq<End>): map<string, string>
  {
    if ends == [] then md else
      var before := GatherMetadata(md, ends[..|ends| - 1]);
      var e := ends[|ends| - 1];
      if e.err == None then PutAll(before, e.msg.metadata) else before
  }

  /** The message a flow node tells once its sub-chain has completed. */
  function WrapEnds(encode: seq<WrapperMsg> -> string, msg: RuleMsg, ends: seq<End>): RuleMsg
  {
    msg.(dataType := JSON, data := encode(WrapperList(ends)),
         metadata := GatherMetadata(msg.metadata, ends))
  }
}
