/** The review service: initialise the registry from the pull request's head
    branch, parse the pull request, review every main and then every related
    feature, and merge the reviews into one text. GitHub, the registry
    loader and the LLM are collaborators passed in as functions; the calls
    made to them are recorded, in order, so that the control flow can be
    stated. */
module ReviewService {
  import opened Base
  import opened Seqs
  import opened Dto
  import opened JavaString
  import Registry
  import MemoryStore
  import Resolver
  import Parser
  import Prompts
  import Aggregator

  /** A call to a collaborator. */
  datatype Call =
    | LoadRegistry(repo: string, branch: Option<string>)
    | ListChangedFiles(repo: string, pr: int)
    | CollectCode(feature: string, changed: seq<string>, core: seq<string>)
    | AskLlm(system: string, user: string)

  /** The collaborators: the registry loader; GitHub's changed-file listing
      and code collection (repository, pull request, base branch, changed
      paths, core paths); and the LLM's first review call (system prompt,
      user prompt). Each returns a value or throws. */
  datatype Environment = Environment(
    load: Registry.Loader,
    changedFilePaths: (string, int) -> Result<seq<string>>,
    collectAll: (string, int, string, seq<string>, seq<string>) -> Result<CollectedCode>,
    startReview: (string, string) -> Result<ReviewResponse>)

  /** The long-lived state the service shares across requests. */
  datatype Services = Services(registry: Registry.Registry, store: MemoryStore.Store)

  /** What every feature of one pull request is reviewed against; `now` is
      the clock reading used to stamp reviews and memories. */
  datatype Request = Request(repo: string, pr: int, base: string,
                             changedFiles: seq<string>, now: Timestamp)

  /** The outcome of reviewing one feature: the store afterwards, the review
      (absent when the feature was skipped or failed) and the calls made. */
  datatype FeatureRun = FeatureRun(store: MemoryStore.Store, review: Option<AggregatedReview>,
                                   calls: seq<Call>)

  /** The outcome of reviewing a list of features. */
  datatype Run = Run(store: MemoryStore.Store, reviews: seq<AggregatedReview>, calls: seq<Call>)

  /** The outcome of a whole request: the shared state afterwards, the text
      returned, and the calls made. */
  datatype Outcome = Outcome(services: Services, message: string, calls: seq<Call>)

  /** Prefixes the message of an exception that aborts a request. */
  const ErrorPrefix := "❌ 리뷰 중 오류가 발생했습니다: "

  function PathOf(f: FileContent): string {
    f.path
  }

  function DiffOf(f: FileContent): Option<string> {
    f.diff
  }

  function ContentOf(f: FileContent): Option<string> {
    f.content
  }

  /** `Collectors.toMap(path, value)`: elements are taken in order; a null
      value throws, and so does a path already taken. */
  function ToEntries(files: seq<FileContent>, value: FileContent -> Option<string>)
    : (r: Result<Prompts.Entries>)
    ensures r.Ok? <==> NoDup(Map(files, PathOf))
                       && forall i :: 0 <= i < |files| ==> value(files[i]).Some?
    ensures r.Ok? ==> |r.value| == |files|
                      && forall i :: 0 <= i < |files| ==>
                           r.value[i] == (files[i].path, value(files[i]).value)
    decreases |files|
  {
    if files == [] then Ok([])
    else
      var init := files[..|files| - 1];
      var last := files[|files| - 1];
      var paths := Map(files, PathOf);
      assert Map(init, PathOf) == paths[..|files| - 1];
      var prior :- ToEntries(init, value);
      assert forall i :: 0 <= i < |init| ==> prior[i].0 == paths[i];
      match value(last)
      case None => Err(NullPointer("null value for key " + last.path))
      case Some(v) =>
        if exists i :: 0 <= i < |prior| && prior[i].0 == last.path then
          Err(IllegalState("Duplicate key " + last.path))
        else
          Ok(prior + [(last.path, v)])
  }

  /** The resolved feature and the changed files it owns, when the feature
      gets as far as code collection: it resolves and owns a changed file. */
  function Owned(registry: Registry.Registry, store: MemoryStore.Store, request: Request,
                 feature: string): Option<(ResolvedFeature, seq<string>)>
  {
    match Resolver.Resolve(registry, store, feature)
    case Ok(Some(resolved)) =>
      (match Resolver.FilterRelatedFiles(registry, feature, request.changedFiles)
       case Ok(files) => if files == [] then None else Some((resolved, files))
       case Err(_) => None)
    case _ => None
  }

  /** `reviewFeature`: resolve, narrow the changed files, collect code,
      build the prompts, ask the LLM once and aggregate its answer. An
      unknown feature or one owning no changed file is skipped before any
      call; a failure at any later step yields no review. The need-for-more
      context loop leaves at once, so the first answer is the one used. */
  function ReviewFeature(env: Environment, registry: Registry.Registry, store: MemoryStore.Store,
                         request: Request, feature: string): (r: FeatureRun)
    ensures r.review.Some? ==> r.review.value.feature == feature
    ensures r.review.None? ==> r.store == store
    ensures forall f :: f != feature ==> MemoryStore.Find(r.store, f) == MemoryStore.Find(store, f)
    ensures registry.Uninitialized? || feature !in registry.catalog ==> r == FeatureRun(store, None, [])
    ensures Resolver.FilterRelatedFiles(registry, feature, request.changedFiles) == Ok([]) ==>
              r == FeatureRun(store, None, [])
    ensures r.calls != [] ==> r.calls[0].CollectCode? && r.calls[0].feature == feature
    ensures |r.calls| <= 2
    ensures Owned(registry, store, request, feature).None? ==> r == FeatureRun(store, None, [])
    ensures Owned(registry, store, request, feature).Some? ==>
              var (resolved, files) := Owned(registry, store, request, feature).value;
              var core := resolved.definition.coreFiles;
              var collect := CollectCode(feature, files, core);
              var code := env.collectAll(request.repo, request.pr, request.base, files, core);
              && |r.calls| >= 1 && r.calls[0] == collect
              && (code.Err? ==> r == FeatureRun(store, None, [collect]))
              && (code.Ok? && (ToEntries(code.value.changedFiles, DiffOf).Err?
                               || ToEntries(code.value.coreFiles, ContentOf).Err?)
                  ==> r == FeatureRun(store, None, [collect]))
    ensures Owned(registry, store, request, feature).Some? ==>
              var (resolved, files) := Owned(registry, store, request, feature).value;
              var core := resolved.definition.coreFiles;
              var code := env.collectAll(request.repo, request.pr, request.base, files, core);
              code.Ok? && ToEntries(code.value.changedFiles, DiffOf).Ok?
              && ToEntries(code.value.coreFiles, ContentOf).Ok? ==>
                var system := Prompts.BuildSystemPrompt();
                var user := Prompts.BuildInitialPrompt(resolved,
                                                       ToEntries(code.value.changedFiles, DiffOf).value,
                                                       ToEntries(code.value.coreFiles, ContentOf).value);
                var answer := env.startReview(system, user);
                && r.calls == [CollectCode(feature, files, core), AskLlm(system, user)]
                && (answer.Err? ==> r.review.None? && r.store == store)
                && (answer.Ok? ==>
                      r.review.Some?
                      && (r.store, r.review.value) == Aggregator.Aggregate(store, feature, answer.value, request.now))
    ensures |r.calls| == 2 ==>
              registry.Initialized? && feature in registry.catalog
              && r.calls[1].AskLlm? && r.calls[1].system == Prompts.BuildSystemPrompt()
              && StartsWith(r.calls[1].user, Prompts.FeatureSection(registry.catalog[feature]))
    ensures r.review.Some? ==>
              |r.calls| == 2 && r.calls[1].AskLlm?
              && env.startReview(r.calls[1].system, r.calls[1].user).Ok?
              && (r.store, r.review.value)
                 == Aggregator.Aggregate(store, feature,
                                         env.startReview(r.calls[1].system, r.calls[1].user).value,
                                         request.now)
  {
    match Resolver.Resolve(registry, store, feature)
    case Err(_) => FeatureRun(store, None, [])
    case Ok(None) => FeatureRun(store, None, [])
    case Ok(Some(resolved)) =>
      match Resolver.FilterRelatedFiles(registry, feature, request.changedFiles)
      case Err(_) => FeatureRun(store, None, [])
      case Ok(filtered) =>
        if filtered == [] then FeatureRun(store, None, [])
        else
          var core := resolved.definition.coreFiles;
          var collect := CollectCode(feature, filtered, core);
          match env.collectAll(request.repo, request.pr, request.base, filtered, core)
          case Err(_) => FeatureRun(store, None, [collect])
          case Ok(code) =>
            var changedMap := ToEntries(code.changedFiles, DiffOf);
            var coreMap := ToEntries(code.coreFiles, ContentOf);
            if changedMap.Err? || coreMap.Err? then FeatureRun(store, None, [collect])
            else
              var system := Prompts.BuildSystemPrompt();
              var user := Prompts.BuildInitialPrompt(resolved, changedMap.value, coreMap.value);
              var ask := AskLlm(system, user);
              match env.startReview(system, user)
              case Err(_) => FeatureRun(store, None, [collect, ask])
              case Ok(response) =>
                var (st, review) := Aggregator.Aggregate(store, feature, response, request.now);
                FeatureRun(st, Some(review), [collect, ask])
  }

  function AskCount(calls: seq<Call>): nat {
    |Filter(calls, (c: Call) => c.AskLlm?)|
  }

  /** Reviewing one feature, given the store the previous feature left. */
  type Step = (MemoryStore.Store, string) -> FeatureRun

  /** The step `reviewPullRequest` takes for each feature of one request. */
  function FeatureStep(env: Environment, registry: Registry.Registry, request: Request): Step {
    (st: MemoryStore.Store, feature: string) => ReviewFeature(env, registry, st, request, feature)
  }

  /** What every feature step guarantees: a review is of the feature asked
      for, which the registry defines, and at most one LLM call is made. */
  ghost predicate SoundStep(step: Step, registry: Registry.Registry) {
    forall st, feature ::
      (step(st, feature).review.Some? ==>
         step(st, feature).review.value.feature == feature
         && registry.Initialized? && feature in registry.catalog)
      && AskCount(step(st, feature).calls) <= 1
  }

  lemma FeatureStepSound(env: Environment, registry: Registry.Registry, request: Request)
    ensures SoundStep(FeatureStep(env, registry, request), registry)
  {
    var step := FeatureStep(env, registry, request);
    forall st, feature
      ensures AskCount(step(st, feature).calls) <= 1
    {
      var calls := ReviewFeature(env, registry, st, request, feature).calls;
      if calls != [] {
        assert calls == [calls[0]] + calls[1..];
        FilterAppend([calls[0]], calls[1..], (c: Call) => c.AskLlm?);
      }
    }
  }

  /** One loop of `reviewPullRequest`: each feature in turn, against the
      store the previous one left; only actual reviews are kept. */
  function RunFeatures(step: Step, store: MemoryStore.Store, features: seq<string>): (r: Run)
    ensures |r.reviews| <= |features|
    ensures features == [] ==> r == Run(store, [], [])
    ensures |features| == 1 ==>
              var one := step(store, features[0]);
              r == Run(one.store, if one.review.Some? then [one.review.value] else [], one.calls)
    decreases |features|
  {
    if features == [] then Run(store, [], [])
    else
      var first := step(store, features[0]);
      var rest := RunFeatures(step, first.store, features[1..]);
      Run(rest.store,
          (if first.review.Some? then [first.review.value] else []) + rest.reviews,
          first.calls + rest.calls)
  }

  /** Running two lists one after the other is running their concatenation:
      reviews and calls of the first list come first. */
  lemma {:induction false} RunFeaturesAppend(step: Step, store: MemoryStore.Store,
                                             a: seq<string>, b: seq<string>)
    ensures var ra := RunFeatures(step, store, a);
            var rb := RunFeatures(step, ra.store, b);
            RunFeatures(step, store, a + b) == Run(rb.store, ra.reviews + rb.reviews, ra.calls + rb.calls)
    decreases |a|
  {
    if a == [] {
      assert a + b == b;
    } else {
      assert (a + b)[0] == a[0];
      assert (a + b)[1..] == a[1..] + b;
      RunFeaturesAppend(step, step(store, a[0]).store, a[1..], b);
    }
  }

  function FeatureOf(r: AggregatedReview): string {
    r.feature
  }

  lemma {:induction false} RunFeaturesOrder(step: Step, registry: Registry.Registry,
                                            store: MemoryStore.Store, features: seq<string>)
    requires SoundStep(step, registry)
    ensures IsSubseq(Map(RunFeatures(step, store, features).reviews, FeatureOf), features)
    decreases |features|
  {
    if features != [] {
      var first := step(store, features[0]);
      var rest := RunFeatures(step, first.store, features[1..]);
      RunFeaturesOrder(step, registry, first.store, features[1..]);
      var tail := Map(rest.reviews, FeatureOf);
      assert features == [features[0]] + features[1..];
      if first.review.Some? {
        MapAppend([first.review.value], rest.reviews, FeatureOf);
        SubseqConsBoth(tail, features[1..], features[0]);
      } else {
        assert [] + rest.reviews == rest.reviews;
        SubseqCons(tail, features[1..], features[0]);
      }
    }
  }

  lemma {:induction false} RunFeaturesInCatalog(step: Step, registry: Registry.Registry,
                                                store: MemoryStore.Store, features: seq<string>)
    requires SoundStep(step, registry)
    ensures forall rv :: rv in RunFeatures(step, store, features).reviews ==>
              registry.Initialized? && rv.feature in registry.catalog
    decreases |features|
  {
    if features != [] {
      var first := step(store, features[0]);
      RunFeaturesInCatalog(step, registry, first.store, features[1..]);
    }
  }

  lemma {:induction false} RunFeaturesAskBound(step: Step, registry: Registry.Registry,
                                               store: MemoryStore.Store, features: seq<string>)
    requires SoundStep(step, registry)
    ensures AskCount(RunFeatures(step, store, features).calls) <= |features|
    decreases |features|
  {
    if features != [] {
      var first := step(store, features[0]);
      var rest := RunFeatures(step, first.store, features[1..]);
      RunFeaturesAskBound(step, registry, first.store, features[1..]);
      FilterAppend(first.calls, rest.calls, (c: Call) => c.AskLlm?);
    }
  }

  /** Reviews come back in the order of the features they review, at most
      one per listed feature, each of a feature the registry defines; and
      there are no more LLM calls than features. */
  lemma RunFeaturesSound(step: Step, registry: Registry.Registry,
                         store: MemoryStore.Store, features: seq<string>)
    requires SoundStep(step, registry)
    ensures var r := RunFeatures(step, store, features);
            IsSubseq(Map(r.reviews, FeatureOf), features)
            && (forall rv :: rv in r.reviews ==> registry.Initialized? && rv.feature in registry.catalog)
            && AskCount(r.calls) <= |features|
  {
    RunFeaturesOrder(step, registry, store, features);
    RunFeaturesInCatalog(step, registry, store, features);
    RunFeaturesAskBound(step, registry, store, features);
  }

  /** `reviewPullRequest`: initialise the registry from the head branch
      (first), list the changed files, parse, review the main then the
      related features, merge. An exception from initialisation or from
      the listing ends the request with the error text. */
  function ReviewPullRequest(env: Environment, services: Services, repo: string, pr: int,
                             title: string, body: string, base: string, head: string,
                             now: Timestamp): (r: Outcome)
    ensures |r.calls| >= 1 && r.calls[0] == LoadRegistry(repo, Some(head))
    ensures env.load(repo, None, Some(head)).Err? ==>
              r == Outcome(services,
                           ErrorPrefix + env.load(repo, None, Some(head)).error.message,
                           [LoadRegistry(repo, Some(head))])
    ensures env.load(repo, None, Some(head)).Ok? ==>
              r.services.registry == Registry.Initialized(env.load(repo, None, Some(head)).value)
              && |r.calls| >= 2 && r.calls[1] == ListChangedFiles(repo, pr)
    ensures env.load(repo, None, Some(head)).Ok? && env.changedFilePaths(repo, pr).Err? ==>
              r.message == ErrorPrefix + env.changedFilePaths(repo, pr).error.message
              && r.services.store == services.store && |r.calls| == 2
  {
    var init := Registry.InitializeOnBranch(services.registry, env.load, repo, None, Some(head));
    var load := LoadRegistry(repo, Some(head));
    match init.status
    case Failed(e) => Outcome(Services(init.registry, services.store), ErrorPrefix + e.message, [load])
    case Done =>
      var list := ListChangedFiles(repo, pr);
      match env.changedFilePaths(repo, pr)
      case Err(e) =>
        Outcome(Services(init.registry, services.store), ErrorPrefix + e.message, [load, list])
      case Ok(changedFiles) =>
        var done := ReviewListed(env, init.registry, services.store,
                                 Request(repo, pr, base, changedFiles, now), title, body);
        Outcome(Services(init.registry, done.0), done.1, [load, list] + done.2)
  }

  /** The part of a request after the listing: parse the description,
      review the main then the related features, merge the reviews. */
  function ReviewListed(env: Environment, registry: Registry.Registry, store: MemoryStore.Store,
                        request: Request, title: string, body: string)
    : (MemoryStore.Store, string, seq<Call>)
  {
    var context := Parser.Parse(title, body, request.changedFiles);
    var step := FeatureStep(env, registry, request);
    var main := RunFeatures(step, store, context.mainFeatures);
    var related := RunFeatures(step, main.store, context.relatedFeatures);
    (related.store, Aggregator.MergeReviews(main.reviews + related.reviews), main.calls + related.calls)
  }

  /** On a request that gets past initialisation and listing, the text
      returned merges the reviews of the main features followed by the
      related ones, exactly as one run over both lists gives them. */
  lemma SuccessfulRequest(env: Environment, services: Services, repo: string, pr: int,
                          title: string, body: string, base: string, head: string,
                          now: Timestamp)
    requires env.load(repo, None, Some(head)).Ok?
    requires env.changedFilePaths(repo, pr).Ok?
    ensures var catalog := env.load(repo, None, Some(head)).value;
            var changedFiles := env.changedFilePaths(repo, pr).value;
            var context := Parser.Parse(title, body, changedFiles);
            var step := FeatureStep(env, Registry.Initialized(catalog),
                                    Request(repo, pr, base, changedFiles, now));
            var run := RunFeatures(step, services.store, context.mainFeatures + context.relatedFeatures);
            var r := ReviewPullRequest(env, services, repo, pr, title, body, base, head, now);
            r.message == Aggregator.MergeReviews(run.reviews)
            && r.services == Services(Registry.Initialized(catalog), run.store)
            && r.calls == [LoadRegistry(repo, Some(head)), ListChangedFiles(repo, pr)] + run.calls
  {
    var catalog := env.load(repo, None, Some(head)).value;
    var changedFiles := env.changedFilePaths(repo, pr).value;
    PastListing(env, services, repo, pr, title, body, base, head, now);
    ListedAsOneRun(env, Registry.Initialized(catalog), services.store,
                   Request(repo, pr, base, changedFiles, now), title, body);
  }

  /** The shape of a request past initialisation and listing: the loaded
      catalog is installed, and the rest is the work after the listing. */
  lemma PastListing(env: Environment, services: Services, repo: string, pr: int,
                    title: string, body: string, base: string, head: string,
                    now: Timestamp)
    requires env.load(repo, None, Some(head)).Ok?
    requires env.changedFilePaths(repo, pr).Ok?
    ensures var catalog := env.load(repo, None, Some(head)).value;
            var request := Request(repo, pr, base, env.changedFilePaths(repo, pr).value, now);
            var done := ReviewListed(env, Registry.Initialized(catalog), services.store, request, title, body);
            ReviewPullRequest(env, services, repo, pr, title, body, base, head, now)
              == Outcome(Services(Registry.Initialized(catalog), done.0), done.1,
                         [LoadRegistry(repo, Some(head)), ListChangedFiles(repo, pr)] + done.2)
  {
  }

  /** The work after the listing is one run over the main features
      followed by the related ones. */
  lemma ListedAsOneRun(env: Environment, registry: Registry.Registry, store: MemoryStore.Store,
                       request: Request, title: string, body: string)
    ensures var context := Parser.Parse(title, body, request.changedFiles);
            var step := FeatureStep(env, registry, request);
            var run := RunFeatures(step, store, context.mainFeatures + context.relatedFeatures);
            ReviewListed(env, registry, store, request, title, body)
              == (run.store, Aggregator.MergeReviews(run.reviews), run.calls)
  {
    var context := Parser.Parse(title, body, request.changedFiles);
    RunFeaturesAppend(FeatureStep(env, registry, request), store,
                      context.mainFeatures, context.relatedFeatures);
  }

  /** On such a request the reviews follow the order in which the pull
      request lists the features, are of features the freshly loaded
      registry defines, and there are no more LLM calls than listed
      features. */
  lemma SuccessfulRequestReviews(env: Environment, services: Services, repo: string, pr: int,
                                 title: string, body: string, base: string, head: string,
                                 now: Timestamp)
    requires env.load(repo, None, Some(head)).Ok?
    requires env.changedFilePaths(repo, pr).Ok?
    ensures var catalog := env.load(repo, None, Some(head)).value;
            var changedFiles := env.changedFilePaths(repo, pr).value;
            var context := Parser.Parse(title, body, changedFiles);
            var features := context.mainFeatures + context.relatedFeatures;
            var step := FeatureStep(env, Registry.Initialized(catalog),
                                    Request(repo, pr, base, changedFiles, now));
            var run := RunFeatures(step, services.store, features);
            IsSubseq(Map(run.reviews, FeatureOf), features)
            && (forall rv :: rv in run.reviews ==> rv.feature in catalog)
            && AskCount(ReviewPullRequest(env, services, repo, pr, title, body, base, head, now).calls)
               <= |features|
  {
    var catalog := env.load(repo, None, Some(head)).value;
    var registry := Registry.Initialized(catalog);
    var changedFiles := env.changedFilePaths(repo, pr).value;
    var request := Request(repo, pr, base, changedFiles, now);
    var context := Parser.Parse(title, body, changedFiles);
    var features := context.mainFeatures + context.relatedFeatures;
    var step := FeatureStep(env, registry, request);
    SuccessfulRequest(env, services, repo, pr, title, body, base, head, now);
    FeatureStepSound(env, registry, request);
    RunFeaturesSound(step, registry, services.store, features);
    var run := RunFeatures(step, services.store, features);
    var calls := [LoadRegistry(repo, Some(head)), ListChangedFiles(repo, pr)];
    FilterAppend(calls, run.calls, (c: Call) => c.AskLlm?);
    assert Filter(calls, (c: Call) => c.AskLlm?) == [];
  }
}
