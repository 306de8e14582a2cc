/** The per-request attachment loop: a running size limit, exact-duplicate reuse, and one provider run
    per distinct content hash. */
module AttachmentLoop {
  import opened Wrappers
  import opened Sequences

  datatype Status = ANALYZED | DUPLICATE | REJECTED | UNAVAILABLE

  /** The analysis of one attachment; `hash` is absent when its ingestion or a required provider failed. */
  datatype Analysis = Analysis(attachment: string, status: Status, size: nat, hash: Option<string>, ocr: Option<string>, image: Option<string>)

  /** What ingestion yields: the analysis, and whether there is validated content to run providers on. */
  datatype Ingested = Ingested(analysis: Analysis, validated: bool)

  /** What running the providers on an attachment yields: their results, or the failure of a required one. */
  datatype ProviderRun = Findings(ocr: Option<string>, image: Option<string>) | RequiredFailure

  /** Ingestion either fails without hash, size and content, or succeeds with hash and content. */
  predicate WellIngested(g: Ingested) {
    && g.analysis.ocr == None && g.analysis.image == None
    && if g.validated then g.analysis.status == ANALYZED && g.analysis.hash.Some?
       else (g.analysis.status == REJECTED || g.analysis.status == UNAVAILABLE) && g.analysis.hash.None? && g.analysis.size == 0
  }

  function FailedAnalysis(attachment: string, status: Status): Analysis {
    Analysis(attachment, status, 0, None, None, None)
  }

  /** `_run_providers` on an analysis that has hashes. */
  function WithRun(a: Analysis, run: ProviderRun): Analysis {
    match run
    case Findings(ocr, image) => a.(ocr := ocr, image := image)
    case RequiredFailure => FailedAnalysis(a.attachment, UNAVAILABLE)
  }

  // ---------------------------------------------------------------- the providers

  /** A provider of the installation; `outcome` is its result on the attachment, absent when it raises. */
  datatype Provider = Provider(enabled: bool, ready: bool, outcome: Option<string>)

  /** What the guild policy says about a provider, and what the runtime requires without a policy. */
  datatype Rules = Rules(policy: Option<ProviderPolicy>, required: bool)
  datatype ProviderPolicy = ProviderPolicy(enabled: bool, required: bool)

  predicate Required(rules: Rules) {
    if rules.policy.Some? then rules.policy.value.required else rules.required
  }

  predicate AllowedBy(rules: Rules) {
    rules.policy.Some? ==> rules.policy.value.enabled
  }

  /** OCR runs when it is allowed, installed and ready. */
  predicate OcrRuns(ocr: Provider, rules: Rules) {
    AllowedBy(rules) && ocr.enabled && ocr.ready
  }

  /** The image provider is asked whether it is ready or not. */
  predicate ImageRuns(image: Provider, rules: Rules) {
    AllowedBy(rules) && image.enabled
  }

  /** A guild policy decides whether a stage is required and may switch it off, but not on; OCR is also passed over while
      it is not ready. */
  lemma StageMeaning(provider: Provider, rules: Rules)
    ensures ImageRuns(provider, rules) <==> provider.enabled && (rules.policy.None? || rules.policy.value.enabled)
    ensures OcrRuns(provider, rules)
      <==> provider.enabled && provider.ready && (rules.policy.None? || rules.policy.value.enabled)
    ensures Required(rules) <==> (rules.policy.None? && rules.required) || (rules.policy.Some? && rules.policy.value.required)
  {
  }

  /** The two provider stages of an attachment with hashes; `ocrPolicy` and `yoloPolicy` post-process results. */
  method RunProviders(ocr: Provider, ocrRules: Rules, image: Provider, imageRules: Rules,
                      ocrPolicy: string -> string, yoloPolicy: string -> string) returns (r: ProviderRun)
    ensures r.RequiredFailure? <==>
      || (OcrRuns(ocr, ocrRules) && Required(ocrRules) && ocr.outcome.None?)
      || (ImageRuns(image, imageRules) && Required(imageRules) && (image.outcome.None? || !image.ready))
    ensures r.Findings? ==>
      && (r.ocr.Some? <==> OcrRuns(ocr, ocrRules) && ocr.outcome.Some?)
      && (r.ocr.Some? ==> r.ocr.value == if ocrRules.policy.Some? then ocrPolicy(ocr.outcome.value) else ocr.outcome.value)
      && (r.image.Some? <==> ImageRuns(image, imageRules) && image.outcome.Some?)
      && (r.image.Some? ==>
            r.image.value == if imageRules.policy.Some? then yoloPolicy(image.outcome.value) else image.outcome.value)
  {
    var ocrResult: Option<string> := None;
    var ocrEnabled := if ocrRules.policy.Some? then ocrRules.policy.value.enabled else ocr.enabled;
    if ocrEnabled && ocr.enabled && ocr.ready {
      if ocr.outcome.None? {
        if Required(ocrRules) {
          return RequiredFailure;
        }
      } else if ocrRules.policy.Some? {
        ocrResult := Some(ocrPolicy(ocr.outcome.value));
      } else {
        ocrResult := ocr.outcome;
      }
    }
    var imageResult: Option<string> := None;
    var imageEnabled := image.enabled && (if imageRules.policy.Some? then imageRules.policy.value.enabled else true);
    if imageEnabled {
      imageResult := image.outcome;
      if image.outcome.None? && Required(imageRules) {
        return RequiredFailure;
      }
    }
    if imageEnabled && Required(imageRules) && !image.ready {
      return RequiredFailure;
    }
    if imageResult.Some? && imageRules.policy.Some? {
      imageResult := Some(yoloPolicy(imageResult.value));
    }
    return Findings(ocrResult, imageResult);
  }

  // ---------------------------------------------------------------- what the loop should compute

  function Total(items: seq<Ingested>, n: nat): nat
    requires n <= |items|
  {
    if n == 0 then 0 else Total(items, n - 1) + items[n - 1].analysis.size
  }

  /** The running total has crossed the limit at this attachment. */
  predicate OverLimit(items: seq<Ingested>, limit: nat, i: nat)
    requires i < |items|
  {
    Total(items, i + 1) > limit
  }

  /** The hash that counts for an attachment. */
  function HashOf(items: seq<Ingested>, limit: nat, i: nat): Option<string>
    requires i < |items|
  {
    if OverLimit(items, limit, i) then None else items[i].analysis.hash
  }

  /** The first of the first `n` attachments with this hash. */
  function FirstWith(items: seq<Ingested>, limit: nat, hash: string, n: nat): (r: Option<nat>)
    requires n <= |items|
    ensures r.Some? ==> r.value < n && HashOf(items, limit, r.value) == Some(hash)
    ensures r.Some? ==> forall j :: 0 <= j < r.value ==> HashOf(items, limit, j) != Some(hash)
    ensures r.None? ==> forall j :: 0 <= j < n ==> HashOf(items, limit, j) != Some(hash)
  {
    if n == 0 then None
    else
      var before := FirstWith(items, limit, hash, n - 1);
      if before.Some? then before
      else if HashOf(items, limit, n - 1) == Some(hash) then Some(n - 1) else None
  }

  /** The providers run on this attachment: it is the first with its hash. */
  predicate Runs(items: seq<Ingested>, limit: nat, i: nat)
    requires i < |items|
  {
    HashOf(items, limit, i).Some? && FirstWith(items, limit, HashOf(items, limit, i).value, i).None?
  }

  /** The analysis due to an attachment. */
  function Expected(items: seq<Ingested>, runs: seq<ProviderRun>, limit: nat, i: nat): Analysis
    requires i < |items| == |runs|
  {
    var a := items[i].analysis;
    if OverLimit(items, limit, i) then FailedAnalysis(a.attachment, REJECTED)
    else if a.hash.None? then a
    else
      var first := FirstWith(items, limit, a.hash.value, i);
      if first.None? then WithRun(a, runs[i])
      else
        var original := WithRun(items[first.value].analysis, runs[first.value]);
        a.(status := DUPLICATE, ocr := original.ocr, image := original.image)
  }

  /** The sizes up to an attachment, in order. */
  function Sizes(items: seq<Ingested>, n: nat): (r: seq<nat>)
    requires n <= |items|
    ensures |r| == n && forall i :: 0 <= i < n ==> r[i] == items[i].analysis.size
  {
    seq(n, i requires 0 <= i < n => items[i].analysis.size)
  }

  /** The running total is the sum of those sizes. */
  lemma {:induction false} TotalIsSum(items: seq<Ingested>, n: nat)
    requires n <= |items|
    ensures Total(items, n) == SumOf(Sizes(items, n), (size: nat) => size)
  {
    if n > 0 {
      TotalIsSum(items, n - 1);
      assert Sizes(items, n) == Sizes(items, n - 1) + [items[n - 1].analysis.size];
      SumAppend(Sizes(items, n - 1), items[n - 1].analysis.size, (size: nat) => size);
    }
  }

  /** An attachment beyond the limit is rejected without hash and results; within the limit one without hash is left as
      it came, the first of its hash gets the findings of its providers, and a later one keeps its own identity. */
  lemma ExpectedMeaning(items: seq<Ingested>, runs: seq<ProviderRun>, limit: nat, i: nat)
    requires i < |items| == |runs|
    ensures var a, r := items[i].analysis, Expected(items, runs, limit, i);
      && (SumOf(Sizes(items, i + 1), (size: nat) => size) > limit ==> r == Analysis(a.attachment, REJECTED, 0, None, None, None))
      && (SumOf(Sizes(items, i + 1), (size: nat) => size) <= limit && a.hash.None? ==> r == a)
      && (Runs(items, limit, i) && runs[i].Findings? ==> r == a.(ocr := runs[i].ocr, image := runs[i].image))
      && (HashOf(items, limit, i).Some? && !Runs(items, limit, i) ==>
            r.status == DUPLICATE && r.attachment == a.attachment && r.size == a.size && r.hash == a.hash)
  {
    TotalIsSum(items, i + 1);
  }

  /** The providers run on an attachment within the limit whose hash no earlier one within the limit has. */
  lemma RunsMeaning(items: seq<Ingested>, limit: nat, i: nat)
    requires i < |items|
    ensures Runs(items, limit, i)
      <==> !OverLimit(items, limit, i) && items[i].analysis.hash.Some?
           && forall j :: 0 <= j < i && !OverLimit(items, limit, j) ==> items[j].analysis.hash != items[i].analysis.hash
  {
    if HashOf(items, limit, i).Some? && !Runs(items, limit, i) {
      var j := FirstWith(items, limit, HashOf(items, limit, i).value, i).value;
      assert !OverLimit(items, limit, j) && items[j].analysis.hash == items[i].analysis.hash;
    }
    forall j | 0 <= j < i && Runs(items, limit, i) && !OverLimit(items, limit, j)
      ensures items[j].analysis.hash != items[i].analysis.hash
    {
      assert HashOf(items, limit, j) != HashOf(items, limit, i);
    }
  }

  /** The loop trips over this attachment: its analysis came back without hashes. */
  predicate Trips(items: seq<Ingested>, runs: seq<ProviderRun>, limit: nat, i: nat)
    requires i < |items| == |runs|
  {
    Runs(items, limit, i) && runs[i].RequiredFailure?
  }

  /** It trips over none exactly when all providers that run yield findings. */
  lemma TripsMeaning(items: seq<Ingested>, runs: seq<ProviderRun>, limit: nat)
    requires |items| == |runs|
    ensures (forall i :: 0 <= i < |items| ==> !Trips(items, runs, limit, i))
      <==> forall i :: 0 <= i < |items| && Runs(items, limit, i) ==> runs[i].Findings?
  {
    if forall i :: 0 <= i < |items| ==> !Trips(items, runs, limit, i) {
      forall i | 0 <= i < |items| && Runs(items, limit, i) ensures runs[i].Findings? {
        assert !Trips(items, runs, limit, i);
      }
    }
  }

  /** The attachments whose providers run, in order. */
  function Called(items: seq<Ingested>, limit: nat, n: nat): seq<nat>
    requires n <= |items|
  {
    if n == 0 then []
    else Called(items, limit, n - 1) + (if Runs(items, limit, n - 1) then [n - 1] else [])
  }

  // ---------------------------------------------------------------- the loop

  ghost predicate Remembers(items: seq<Ingested>, runs: seq<ProviderRun>, limit: nat, n: nat, seen: map<string, Analysis>)
    requires n <= |items| == |runs|
  {
    forall h :: if FirstWith(items, limit, h, n).Some?
      then h in seen && seen[h] == WithRun(items[FirstWith(items, limit, h, n).value].analysis, runs[FirstWith(items, limit, h, n).value])
      else h !in seen
  }

  /** What the loop can read off its dictionary about the next attachment. */
  lemma NextFromSeen(items: seq<Ingested>, runs: seq<ProviderRun>, limit: nat, i: nat, seen: map<string, Analysis>)
    requires i < |items| == |runs| && Remembers(items, runs, limit, i, seen)
    ensures var a, h := items[i].analysis, HashOf(items, limit, i);
      && (Runs(items, limit, i) <==> h.Some? && h.value !in seen)
      && Expected(items, runs, limit, i)
        == (if OverLimit(items, limit, i) then FailedAnalysis(a.attachment, REJECTED)
            else if h.None? then a
            else if h.value in seen then a.(status := DUPLICATE, ocr := seen[h.value].ocr, image := seen[h.value].image)
            else WithRun(a, runs[i]))
  {
  }

  /** One turn of the loop; without an analysis it trips over the attachment. */
  method AnalyzeOne(items: seq<Ingested>, runs: seq<ProviderRun>, limit: nat, i: nat, total: nat, seen: map<string, Analysis>)
      returns (r: Option<Analysis>, total': nat, seen': map<string, Analysis>, ran: bool)
    requires i < |items| == |runs| && WellIngested(items[i])
    requires total == Total(items, i) && Remembers(items, runs, limit, i, seen)
    ensures r.None? <==> Trips(items, runs, limit, i)
    ensures r.Some? ==> r.value == Expected(items, runs, limit, i) && Remembers(items, runs, limit, i + 1, seen')
    ensures total' == Total(items, i + 1) && ran == Runs(items, limit, i)
  {
    var analysis, validated := items[i].analysis, items[i].validated;
    ran, seen' := false, seen;
    total' := total + analysis.size;
    if total' > limit {
      analysis, validated := FailedAnalysis(analysis.attachment, REJECTED), false;
    }
    NextFromSeen(items, runs, limit, i, seen);
    RememberStep(items, runs, limit, i, seen);
    if analysis.hash.Some? && analysis.hash.value in seen {
      var original := seen[analysis.hash.value];
      analysis := analysis.(status := DUPLICATE, ocr := original.ocr, image := original.image);
    } else if analysis.hash.Some? {
      if validated {
        analysis, ran := WithRun(analysis, runs[i]), true;
      }
      if analysis.hash.None? {
        return None, total', seen', ran;
      }
      seen' := seen[analysis.hash.value := analysis];
    }
    r := Some(analysis);
  }

  method Analyze(items: seq<Ingested>, runs: seq<ProviderRun>, limit: nat)
      returns (r: Result<seq<Analysis>>, calls: seq<nat>)
    requires |items| == |runs| && forall i :: 0 <= i < |items| ==> WellIngested(items[i])
    ensures r.Ok? <==> forall i :: 0 <= i < |items| ==> !Trips(items, runs, limit, i)
    ensures r.Ok? <==> forall i :: 0 <= i < |items| && Runs(items, limit, i) ==> runs[i].Findings?
    ensures r.Ok? ==>
      && |r.value| == |items|
      && (forall i :: 0 <= i < |items| ==> r.value[i] == Expected(items, runs, limit, i))
      && calls == Called(items, limit, |items|)
    ensures r.Err? ==> r.error == AttributeError
  {
    TripsMeaning(items, runs, limit);
    var analyses: seq<Analysis> := [];
    var seen: map<string, Analysis> := map[];
    var total := 0;
    calls := [];
    for i := 0 to |items|
      invariant total == Total(items, i)
      invariant |analyses| == i && forall j :: 0 <= j < i ==> analyses[j] == Expected(items, runs, limit, j)
      invariant forall j :: 0 <= j < i ==> !Trips(items, runs, limit, j)
      invariant Remembers(items, runs, limit, i, seen)
      invariant calls == Called(items, limit, i)
    {
      var analysis, ran;
      analysis, total, seen, ran := AnalyzeOne(items, runs, limit, i, total, seen);
      if ran {
        calls := calls + [i];
      }
      if analysis.None? {
        return Err(AttributeError), calls;
      }
      analyses := analyses + [analysis.value];
    }
    r := Ok(analyses);
  }

  lemma RememberStep(items: seq<Ingested>, runs: seq<ProviderRun>, limit: nat, i: nat, seen: map<string, Analysis>)
    requires i < |items| == |runs| && Remembers(items, runs, limit, i, seen)
    ensures Remembers(items, runs, limit, i + 1,
      if Runs(items, limit, i) then seen[HashOf(items, limit, i).value := WithRun(items[i].analysis, runs[i])] else seen)
  {
  }

  // ---------------------------------------------------------------- what follows for a request

  /** Once the limit is crossed, every later attachment is rejected too. */
  lemma {:induction false} OverLimitStays(items: seq<Ingested>, limit: nat, i: nat, j: nat)
    requires i <= j < |items| && OverLimit(items, limit, i)
    ensures OverLimit(items, limit, j)
  {
    if i < j {
      OverLimitStays(items, limit, i, j - 1);
    }
  }

  /** The sizes of the attachments that were let through. */
  function AdmittedSize(items: seq<Ingested>, limit: nat, n: nat): nat
    requires n <= |items|
  {
    if n == 0 then 0
    else AdmittedSize(items, limit, n - 1) + (if OverLimit(items, limit, n - 1) then 0 else items[n - 1].analysis.size)
  }

  /** Together they never exceed the limit. */
  lemma {:induction false} AdmittedWithinLimit(items: seq<Ingested>, limit: nat, n: nat)
    requires n <= |items|
    ensures AdmittedSize(items, limit, n) <= limit
    ensures n > 0 && !OverLimit(items, limit, n - 1) ==> AdmittedSize(items, limit, n) == Total(items, n)
  {
    if n > 0 {
      AdmittedWithinLimit(items, limit, n - 1);
      if n > 1 && OverLimit(items, limit, n - 2) {
        OverLimitStays(items, limit, n - 2, n - 1);
      }
    }
  }

  lemma {:induction false} CalledMembers(items: seq<Ingested>, limit: nat, n: nat)
    requires n <= |items|
    ensures forall i :: i in Called(items, limit, n) <==> 0 <= i < n && Runs(items, limit, i)
  {
    if n > 0 {
      CalledMembers(items, limit, n - 1);
    }
  }

  /** The calls come in the order of the attachments. */
  lemma {:induction false} CalledInOrder(items: seq<Ingested>, limit: nat, n: nat)
    requires n <= |items|
    ensures forall i :: 0 <= i < |Called(items, limit, n)| ==> Called(items, limit, n)[i] < n
    ensures forall i, j :: 0 <= i < j < |Called(items, limit, n)| ==> Called(items, limit, n)[i] < Called(items, limit, n)[j]
  {
    if n > 0 {
      CalledInOrder(items, limit, n - 1);
    }
  }

  /** The providers run at most once per distinct hash: two called attachments never share one, and every
      hash that counts has a called attachment. */
  lemma OneRunPerHash(items: seq<Ingested>, limit: nat, i: nat, j: nat)
    requires i < j < |items| && HashOf(items, limit, i).Some?
    ensures HashOf(items, limit, i) == HashOf(items, limit, j) ==> j !in Called(items, limit, |items|)
    ensures exists k :: k in Called(items, limit, |items|) && k < |items| && HashOf(items, limit, k) == HashOf(items, limit, i)
  {
    CalledMembers(items, limit, |items|);
    var first := FirstWith(items, limit, HashOf(items, limit, i).value, |items|);
    var k := first.value;
    assert Runs(items, limit, k);
    assert k in Called(items, limit, |items|);
  }

  /** A duplicate gets the status DUPLICATE and the provider results of the first attachment with its hash. */
  lemma DuplicatesShareResults(items: seq<Ingested>, runs: seq<ProviderRun>, limit: nat, i: nat, j: nat)
    requires i < j < |items| == |runs| && Runs(items, limit, i)
    requires HashOf(items, limit, j) == HashOf(items, limit, i)
    ensures var a, b := Expected(items, runs, limit, i), Expected(items, runs, limit, j);
      b.status == DUPLICATE && b.ocr == a.ocr && b.image == a.image
  {
    var hash := HashOf(items, limit, i).value;
    assert FirstWith(items, limit, hash, j) == Some(i);
  }
}
