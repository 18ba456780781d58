/** Node ids, opaque apart from equality. */
module Identity {
  datatype NodeId = NodeId(id: string)
}
