/** The key of a source record, shared by Stage 3 and the ER index. */
module Sources {

  datatype SourceKey = SourceKey(connectorId: string, sourceTable: string, recordId: string)
}
