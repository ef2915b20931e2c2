/** The records the pipeline passes around. They carry no behaviour. Java
    fields that may be null are `Option`s where the null case has an effect
    the model keeps; `FeatureMemory.keyPoints` is a plain list, since the
    prompt treats a null list as empty and the merge would throw on it. */
module Dto {
  import opened Base

  /** An instant read from the clock; the model takes it as an input. */
  type Timestamp = int

  /** A feature's static definition, as loaded from the registry file. The
      description, paths and core files are taken as always present. */
  datatype FeatureDefinition = FeatureDefinition(
    name: string,
    description: string,
    paths: seq<string>,      // path prefixes owned by the feature
    coreFiles: seq<string>)  // files always shown to the reviewer

  /** Knowledge accumulated about a feature over past reviews. */
  datatype FeatureMemory = FeatureMemory(
    feature: string,
    summary: string,
    keyPoints: seq<string>,
    relatedFiles: Option<seq<string>>,
    updatedAt: Timestamp)

  /** A definition together with the memory stored for it, if any. */
  datatype ResolvedFeature = ResolvedFeature(
    definition: FeatureDefinition,
    memory: Option<FeatureMemory>)

  /** The memory update an LLM response may propose; `keyPoints` defaults to
      the empty list, `relatedFiles` is tested for null by the merge. */
  datatype MemorySuggestion = MemorySuggestion(
    summary: string,
    keyPoints: seq<string>,
    relatedFiles: Option<seq<string>>)

  /** One LLM answer. */
  datatype ReviewResponse = ReviewResponse(
    review: string,
    needMoreContext: bool,
    requestedFiles: seq<string>,
    reason: Option<string>,
    memorySuggestion: Option<MemorySuggestion>)

  /** The outcome of reviewing one feature. */
  datatype AggregatedReview = AggregatedReview(
    feature: string,
    review: string,
    reviewedAt: Timestamp,
    updatedMemory: Option<FeatureMemory>)

  /** What the parser extracts from a pull request. */
  datatype PrContext = PrContext(
    title: string,
    summary: string,
    mainFeatures: seq<string>,
    relatedFeatures: seq<string>,
    description: seq<string>,
    changedFiles: seq<string>)

  datatype FileType = Changed | Core | Additional

  /** A collected file: changed files carry a diff, the others their content. */
  datatype FileContent = FileContent(
    path: string,
    content: Option<string>,
    diff: Option<string>,
    fileType: FileType)

  datatype CollectedCode = CollectedCode(
    changedFiles: seq<FileContent>,
    coreFiles: seq<FileContent>,
    additionalFiles: seq<FileContent>)
}
