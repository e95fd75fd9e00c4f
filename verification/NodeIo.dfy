/** What a workflow node is called with and what it answers. */
module NodeIo {
  import opened Json

  /** The outputs of the predecessors, by node id. */
  type Parents = map<string, Value>

  datatype NodeOutput = NodeOutput(value: Value, gasUsed: nat)
}
