/** The dataset descriptor: what a state's description file says about the
    dataset under audit. Values only; nothing here changes. */
module Description {
  import opened Wrappers

  datatype Metadata = Metadata(
    stateLegalName: string,
    stateFIPSCode: int,
    stateAbbreviation: string,
    git: string,
    repoName: string,
    archive: string,
    fileName: string,
    yearEffectiveStart: int,
    yearEffectiveEnd: int)

  /** The column names of the table; any of them may be absent. */
  datatype Descriptor = Descriptor(
    stateFIPS: Option<string>,
    countyFIPS: Option<string>,
    countyLegalName: Option<string>,
    totalPopulation: Option<string>)

  datatype StateSchema = StateSchema(metadata: Metadata, descriptors: Descriptor)

  /** Python truthiness of an optional column name: set and non-empty. */
  predicate IsSet(column: Option<string>) {
    column.Some? && column.value != ""
  }
}
