/** ci/tiers.py: which jobs a run of the workflow gets (`plan`), and whether a
    finished run is green (`verdict`). The workflow's jobs and the changed
    paths come in as values. */
module Tiers {
  import opened Wrappers
  import opened PathRules
  import Sorting
  import Text

  datatype Tier = Release | Full | Pr | Noop | Partial

  const NOT_SELECTABLE: seq<string> := ["plan", "tier", "nightly-red"]
  const PR_JOBS: seq<string> := ["plan-test", "lint-test", "fuzz-smoke"]
  const MERGE_OMITS: seq<string> := ["native-macos"]
  const FULL_LABEL := "full-matrix"
  const RELEASE_LABEL := "release-matrix"

  function TierName(t: Tier): string {
    match t
    case Release => "release" case Full => "full" case Pr => "pr" case Noop => "noop" case Partial => "partial"
  }

  function TierNamed(name: string): Option<Tier> {
    if name == "release" then Some(Release)
    else if name == "full" then Some(Full)
    else if name == "pr" then Some(Pr)
    else if name == "noop" then Some(Noop)
    else if name == "partial" then Some(Partial)
    else None
  }

  lemma NamedBack(t: Tier)
    ensures TierNamed(TierName(t)) == Some(t)
  {
    assert "full"[0] != "noop"[0] && "release"[0] != "partial"[0];
  }

  // ------------------------------------------------------- jobs of a tier --

  /** The jobs that are among `names`, or that are not, in order. */
  function Keep(jobs: seq<string>, names: seq<string>, among: bool): seq<string> {
    if jobs == [] then []
    else (if (jobs[0] in names) == among then [jobs[0]] else []) + Keep(jobs[1..], names, among)
  }

  function JobsOf(tier: Tier, every: seq<string>): seq<string> {
    match tier
    case Release => every
    case Full => Keep(every, MERGE_OMITS, false)
    case Pr => Keep(every, PR_JOBS, true)
    case _ => []
  }

  lemma {:induction false} KeptJobs(jobs: seq<string>, names: seq<string>, among: bool, j: string)
    ensures multiset(Keep(jobs, names, among))[j] == if (j in names) == among then multiset(jobs)[j] else 0
  {
    if jobs != [] {
      KeptJobs(jobs[1..], names, among, j);
      var head := if (jobs[0] in names) == among then [jobs[0]] else [];
      assert multiset(head + Keep(jobs[1..], names, among))
          == multiset(head) + multiset(Keep(jobs[1..], names, among));
      assert jobs == [jobs[0]] + jobs[1..];
      assert multiset(jobs) == multiset{jobs[0]} + multiset(jobs[1..]);
    }
  }

  lemma KeptIff(jobs: seq<string>, names: seq<string>, among: bool, j: string)
    ensures j in Keep(jobs, names, among) <==> j in jobs && (j in names) == among
  {
    KeptJobs(jobs, names, among, j);
    assert j in Keep(jobs, names, among) <==> j in multiset(Keep(jobs, names, among));
    assert j in jobs <==> j in multiset(jobs);
  }

  /** A tier picks the same jobs from a reordered list. */
  lemma JobsOfPermutation(tier: Tier, a: seq<string>, b: seq<string>)
    requires multiset(a) == multiset(b)
    ensures multiset(JobsOf(tier, a)) == multiset(JobsOf(tier, b))
  {
    forall j ensures multiset(JobsOf(tier, a))[j] == multiset(JobsOf(tier, b))[j] {
      KeptJobs(a, MERGE_OMITS, false, j);
      KeptJobs(b, MERGE_OMITS, false, j);
      KeptJobs(a, PR_JOBS, true, j);
      KeptJobs(b, PR_JOBS, true, j);
    }
  }

  /** noop < pr < full < release. */
  function Rank(t: Tier): nat {
    match t case Noop => 0 case Partial => 0 case Pr => 1 case Full => 2 case Release => 3
  }

  function Join(s: Tier, t: Tier): Tier {
    if Rank(s) < Rank(t) then t else s
  }

  predicate Within(a: seq<string>, b: seq<string>) {
    forall j | j in a :: j in b
  }

  /** The tiers nest: a higher tier runs every job a lower one does. */
  lemma TiersNest(s: Tier, t: Tier, every: seq<string>)
    requires Rank(s) <= Rank(t)
    ensures Within(JobsOf(s, every), JobsOf(t, every))
  {
    forall j | j in JobsOf(s, every) ensures j in JobsOf(t, every) {
      KeptIff(every, PR_JOBS, true, j);
      KeptIff(every, MERGE_OMITS, false, j);
      assert |"native-macos"| == 12 && |"plan-test"| == 9 && |"lint-test"| == 9 && |"fuzz-smoke"| == 10;
    }
  }

  // ---------------------------------------------------- tiers by the paths --

  predicate Names(paths: seq<string>, c: Class) {
    exists p | p in paths :: Classify(p) == c
  }

  /** The tier a pull request's changed paths ask for. */
  function PathTier(paths: seq<string>): (t: Tier)
    ensures t != Partial && t != Release
  {
    if paths == [] || Names(paths, FULL) then Full else if Names(paths, PR) then Pr else Noop
  }

  method TierOfPaths(paths: seq<string>) returns (tier: Tier)
    ensures tier == PathTier(paths)
  {
    hide Classify;
    if paths == [] {
      return Full;
    }
    var prose, pr, full := 0, 0, 0;
    for i := 0 to |paths|
      invariant prose + pr + full == i && prose >= 0
      invariant 0 <= pr && (pr == 0 <==> !Names(paths[..i], PR))
      invariant 0 <= full && (full == 0 <==> !Names(paths[..i], FULL))
    {
      OneMore(paths, i);
      match Classify(paths[i]) {
        case PROSE => prose := prose + 1;
        case PR => pr := pr + 1;
        case FULL => full := full + 1;
      }
    }
    assert paths[..|paths|] == paths;
    if full > 0 {
      return Full;
    }
    tier := if pr == 0 then Noop else Pr;
  }

  lemma OneMore(paths: seq<string>, i: nat)
    requires i < |paths|
    ensures forall c: Class :: Names(paths[..i + 1], c) <==> Names(paths[..i], c) || Classify(paths[i]) == c
  {
    hide Classify;
    assert paths[..i + 1] == paths[..i] + [paths[i]];
    forall c: Class ensures Names(paths[..i + 1], c) <==> Names(paths[..i], c) || Classify(paths[i]) == c {
      NamesOfUnion(paths[..i], [paths[i]], c);
    }
  }

  lemma NamesOfUnion(a: seq<string>, b: seq<string>, c: Class)
    ensures Names(a + b, c) <==> Names(a, c) || Names(b, c)
  {
    hide Classify;
    forall p ensures p in a + b <==> p in a || p in b { }
    if Names(a, c) {
      var p :| p in a && Classify(p) == c;
      assert p in a + b;
    }
    if Names(b, c) {
      var p :| p in b && Classify(p) == c;
      assert p in a + b;
    }
  }

  /** The tier of two changes together is the join of their tiers. */
  lemma UnionIsJoin(a: seq<string>, b: seq<string>)
    requires a != [] && b != []
    ensures PathTier(a + b) == Join(PathTier(a), PathTier(b))
  {
    hide Names;
    NamesOfUnion(a, b, FULL);
    NamesOfUnion(a, b, PR);
  }

  // ---------------------------------------------------------------- plan --

  /** The workflow's jobs in order, and what each needs. */
  datatype Workflow = Workflow(order: seq<string>, needs: map<string, seq<string>>)

  predicate IsWorkflow(wf: Workflow) {
    && Distinct(wf.order)
    && (forall j | j in wf.order :: j in wf.needs)
  }

  function Selectable(wf: Workflow): seq<string> {
    Keep(wf.order, NOT_SELECTABLE, false)
  }

  /** An event, its fields empty where they are absent; `paths` none where the change cannot be read. */
  datatype Request = Request(event: string, action: string, added: string, labels: string,
                             jobs: string, tier: string, paths: Option<seq<string>>)

  datatype Refusal = NoSuchJob(name: string) | JobsAndTier | NoSuchTier(tier: string)
                   | UnknownJob(job: string) | Unmet(job: string, need: string)

  datatype Plan = Plan(tier: Tier, jobs: seq<string>)

  function Nonempty(parts: seq<string>): seq<string> {
    if parts == [] then []
    else (if parts[0] != "" then [parts[0]] else []) + Nonempty(parts[1..])
  }

  function Labels(text: string): seq<string> {
    Nonempty(Text.Split(text, ','))
  }

  predicate IsBlank(c: char) { Text.IsSpace(c) || '\U{1C}' <= c <= '\U{1F}' }

  /** `str.split()`: the runs of characters that are not blank. */
  function Words(text: string): seq<string> {
    WordsAfter("", text)
  }

  function WordsAfter(word: string, text: string): seq<string>
    decreases |text|
  {
    var done := if word == "" then [] else [word];
    if text == "" then done
    else if IsBlank(text[0]) then done + WordsAfter("", text[1..])
    else WordsAfter(word + [text[0]], text[1..])
  }

  predicate Solid(w: string) {
    forall c | c in w :: !IsBlank(c)
  }

  lemma {:induction false} WordGrows(word: string, w: string, rest: string)
    requires Solid(w)
    ensures WordsAfter(word, w + rest) == WordsAfter(word + w, rest)
    decreases |w|
  {
    if w == "" {
      assert w + rest == rest && word + w == word;
    } else {
      assert w[0] in w && forall c | c in w[1..] :: c in w;
      assert (w + rest)[1..] == w[1..] + rest;
      assert word + [w[0]] + w[1..] == word + w;
      WordGrows(word + [w[0]], w[1..], rest);
    }
  }

  /** Words set apart by spaces are read back as themselves. */
  lemma {:induction false} WordsOfJoin(words: seq<string>)
    requires forall w | w in words :: w != "" && Solid(w)
    ensures Words(Text.Join(words, " ")) == words
  {
    if words != [] {
      var w := words[0];
      assert words == [w] + words[1..] && w in words && forall v | v in words[1..] :: v in words;
      if |words| == 1 {
        WordGrows("", w, "");
        assert w + "" == w && "" + w == w && WordsAfter(w, "") == [w];
      } else {
        var rest := Text.Join(words[1..], " ");
        WordsOfJoin(words[1..]);
        Text.Associate(w, " ", rest);
        WordGrows("", w, " " + rest);
        assert "" + w == w && (" " + rest)[1..] == rest && IsBlank(' ');
        assert WordsAfter(w, " " + rest) == [w] + WordsAfter("", rest);
      }
    }
  }

  lemma {:induction false} NonemptyParts(parts: seq<string>)
    requires forall p | p in parts :: p != ""
    ensures Nonempty(parts) == parts
  {
    if parts != [] {
      assert parts == [parts[0]] + parts[1..] && parts[0] in parts && forall p | p in parts[1..] :: p in parts;
      NonemptyParts(parts[1..]);
    }
  }

  /** Labels set apart by commas are read back as themselves. */
  lemma LabelsOfJoin(labels: seq<string>)
    requires forall l | l in labels :: l != "" && ',' !in l
    ensures Labels(Text.Join(labels, ",")) == labels
  {
    if labels == [] {
      assert Text.Split("", ',') == [""];
    } else {
      Text.SplitOfJoin(labels, ',');
      NonemptyParts(labels);
    }
  }

  /** The first of `names` that is no job of `known`. */
  function Unknown(names: seq<string>, known: seq<string>): Option<string> {
    if names == [] then None
    else if names[0] !in known then Some(names[0])
    else Unknown(names[1..], known)
  }

  predicate Met(need: string, asked: seq<string>) {
    need in NOT_SELECTABLE || need in asked
  }

  function UnmetNeed(needs: seq<string>, asked: seq<string>): Option<string> {
    if needs == [] then None
    else if !Met(needs[0], asked) then Some(needs[0])
    else UnmetNeed(needs[1..], asked)
  }

  function UnmetJob(jobs: seq<string>, needs: map<string, seq<string>>, asked: seq<string>): Option<Refusal>
    requires forall j | j in jobs :: j in needs
  {
    if jobs == [] then None
    else
      var n := UnmetNeed(needs[jobs[0]], asked);
      if n.Some? then Some(Unmet(jobs[0], n.value)) else UnmetJob(jobs[1..], needs, asked)
  }

  lemma EventsDiffer()
    ensures "pull_request" != "workflow_dispatch" && "pull_request" != "schedule" && "workflow_dispatch" != "schedule"
  {
    assert "pull_request"[0] != "schedule"[0];
  }

  function EventOf(req: Request): string {
    if req.event == "" then "workflow_dispatch" else req.event
  }

  function PlanTier(tier: Tier, every: seq<string>): Result<Plan, Refusal> {
    Ok(Plan(tier, JobsOf(tier, every)))
  }

  lemma {:induction false} KnownJobs(names: seq<string>, known: seq<string>)
    ensures Unknown(names, known).None? <==> Within(names, known)
    ensures Unknown(names, known).Some? ==>
              (Unknown(names, known).value in names && Unknown(names, known).value !in known)
  {
    if names != [] {
      assert names == [names[0]] + names[1..];
      KnownJobs(names[1..], known);
    }
  }

  lemma SelectableJob(wf: Workflow, j: string)
    requires IsWorkflow(wf) && j in Selectable(wf)
    ensures j in wf.order && j in wf.needs && j !in NOT_SELECTABLE
  {
    KeptIff(wf.order, NOT_SELECTABLE, false, j);
  }

  /** A dispatch that names jobs: refused unless each is one and brings what it needs. */
  function PlanAsked(asked: seq<string>, wf: Workflow): Result<Plan, Refusal>
    requires IsWorkflow(wf)
  {
    var every := Selectable(wf);
    var unknown := Unknown(asked, every);
    if unknown.Some? then Err(UnknownJob(unknown.value))
    else
      KnownJobs(asked, every);
      assert forall j | j in asked :: j in wf.needs by {
        forall j | j in asked ensures j in wf.needs { SelectableJob(wf, j); }
      }
      var unmet := UnmetJob(asked, wf.needs, asked);
      if unmet.Some? then Err(unmet.value) else Ok(Plan(Partial, Keep(every, asked, true)))
  }

  function PlanPullRequest(req: Request, every: seq<string>): Result<Plan, Refusal> {
    var labels := Labels(req.labels);
    if req.action == "labeled" && req.added != FULL_LABEL && req.added != RELEASE_LABEL then PlanTier(Noop, every)
    else if req.action == "labeled" && req.added == FULL_LABEL && RELEASE_LABEL in labels then PlanTier(Noop, every)
    else if RELEASE_LABEL in labels then PlanTier(Release, every)
    else if FULL_LABEL in labels then PlanTier(Full, every)
    else PlanTier(if req.paths.Some? then PathTier(req.paths.value) else Full, every)
  }

  function PlanDispatch(req: Request, wf: Workflow): Result<Plan, Refusal>
    requires IsWorkflow(wf)
  {
    var asked := Words(req.jobs);
    if asked != [] && req.tier != "" then Err(JobsAndTier)
    else if req.tier != "" && req.tier != "full" && req.tier != "release" then Err(NoSuchTier(req.tier))
    else if asked != [] then PlanAsked(asked, wf)
    else PlanTier(if req.tier == "release" then Release else Full, Selectable(wf))
  }

  /** What each event gets, by kind of event. */
  function PlanOf(req: Request, wf: Workflow): Result<Plan, Refusal>
    requires IsWorkflow(wf)
  {
    var every := Selectable(wf);
    var missing := Unknown(PR_JOBS + MERGE_OMITS, every);
    if missing.Some? then Err(NoSuchJob(missing.value))
    else if EventOf(req) == "pull_request" then PlanPullRequest(req, every)
    else if EventOf(req) == "workflow_dispatch" then PlanDispatch(req, wf)
    else PlanTier(if EventOf(req) == "schedule" then Release else Full, every)
  }

  // ------------------------------------------ what a request is to get --

  /** A label that starts no run: it is neither of the two, or its run is the other's. */
  predicate Superfluous(req: Request) {
    req.action == "labeled"
    && ((req.added != "full-matrix" && req.added != "release-matrix") ||
        (req.added == "full-matrix" && "release-matrix" in Labels(req.labels)))
  }

  /** The tier of a pull request, by its labels and then by its changed paths. */
  predicate ReviewGets(req: Request, tier: Tier) {
    if Superfluous(req) then tier == Noop
    else if "release-matrix" in Labels(req.labels) then tier == Release
    else if "full-matrix" in Labels(req.labels) || req.paths.None? then tier == Full
    else
      var paths := req.paths.value;
      && (tier == Full <==> paths == [] || exists p | p in paths :: Classify(p) == FULL)
      && (tier == Noop <==> paths != [] && forall p | p in paths :: Classify(p) == PROSE)
      && (tier == Full || tier == Noop || tier == Pr)
  }

  /** The tier each kind of event gets. */
  predicate Gets(req: Request, tier: Tier) {
    && (req.event == "schedule" ==> tier == Release)
    && (req.event == "pull_request" ==> ReviewGets(req, tier))
    && (req.event == "workflow_dispatch" || req.event == "" ==>
          tier == if Words(req.jobs) != [] then Partial else if req.tier == "release" then Release else Full)
    && (req.event !in ["schedule", "pull_request", "workflow_dispatch", ""] ==> tier == Full)
  }

  /** The jobs a tier runs. */
  predicate Runs(tier: Tier, asked: seq<string>, j: string) {
    match tier
    case Release => true
    case Full => j != "native-macos"
    case Pr => j == "plan-test" || j == "lint-test" || j == "fuzz-smoke"
    case Noop => false
    case Partial => j in asked
  }

  predicate Offers(wf: Workflow, j: string) {
    j in wf.order && j != "plan" && j != "tier" && j != "nightly-red"
  }

  predicate Before(order: seq<string>, x: string, y: string) {
    exists i, k :: 0 <= i < k < |order| && order[i] == x && order[k] == y
  }

  predicate InOrder(jobs: seq<string>, order: seq<string>) {
    forall i, k :: 0 <= i < k < |jobs| ==> Before(order, jobs[i], jobs[k])
  }

  /** A plan is its event's tier, and in the workflow's order that tier's jobs. */
  ghost predicate Planned(req: Request, wf: Workflow, p: Plan) {
    && Gets(req, p.tier)
    && (forall j :: j in p.jobs <==> Offers(wf, j) && Runs(p.tier, Words(req.jobs), j))
    && InOrder(p.jobs, wf.order)
  }

  /** What a refusal says is so. */
  predicate Justified(req: Request, wf: Workflow, e: Refusal) {
    match e
    case NoSuchJob(j) => j in ["plan-test", "lint-test", "fuzz-smoke", "native-macos"] && !Offers(wf, j)
    case _ =>
      (req.event == "workflow_dispatch" || req.event == "")
      && match e
         case JobsAndTier => Words(req.jobs) != [] && req.tier != ""
         case NoSuchTier(t) => t == req.tier && t != "" && t != "full" && t != "release"
         case UnknownJob(j) => j in Words(req.jobs) && !Offers(wf, j)
         case Unmet(j, need) => Lacks(Words(req.jobs), wf, j, need)
  }

  /** A job asked for, without a selectable job that it needs. */
  predicate Lacks(asked: seq<string>, wf: Workflow, j: string, need: string) {
    j in asked && j in wf.needs && need in wf.needs[j] && need !in asked
    && need != "plan" && need != "tier" && need != "nightly-red"
  }

  lemma PathTierMeans(paths: seq<string>)
    ensures PathTier(paths) == Full <==> paths == [] || exists p | p in paths :: Classify(p) == FULL
    ensures PathTier(paths) == Noop <==> paths != [] && forall p | p in paths :: Classify(p) == PROSE
    ensures PathTier(paths) == Full || PathTier(paths) == Noop || PathTier(paths) == Pr
  {
    hide Classify;
  }

  lemma OfferedJobs(wf: Workflow, j: string)
    ensures j in Selectable(wf) <==> Offers(wf, j)
  {
    KeptIff(wf.order, NOT_SELECTABLE, false, j);
  }

  lemma {:induction false} KeepInOrder(jobs: seq<string>, names: seq<string>, among: bool)
    ensures InOrder(Keep(jobs, names, among), jobs)
  {
    if jobs != [] {
      var head := if (jobs[0] in names) == among then [jobs[0]] else [];
      var tail := Keep(jobs[1..], names, among);
      KeepInOrder(jobs[1..], names, among);
      forall i, k | 0 <= i < k < |head + tail| ensures Before(jobs, (head + tail)[i], (head + tail)[k]) {
        KeptLater(jobs, names, among, k - |head|);
        if i >= |head| {
          BeforeLater(jobs, tail[i - |head|], tail[k - |head|]);
        }
      }
    }
  }

  lemma KeptLater(jobs: seq<string>, names: seq<string>, among: bool, k: nat)
    requires jobs != [] && k < |Keep(jobs[1..], names, among)|
    ensures Before(jobs, jobs[0], Keep(jobs[1..], names, among)[k])
  {
    var j := Keep(jobs[1..], names, among)[k];
    KeptIff(jobs[1..], names, among, j);
    var i :| 0 <= i < |jobs[1..]| && jobs[1..][i] == j;
    assert jobs[i + 1] == j;
  }

  lemma BeforeLater(jobs: seq<string>, x: string, y: string)
    requires jobs != []
    ensures Before(jobs[1..], x, y) ==> Before(jobs, x, y)
  {
    if Before(jobs[1..], x, y) {
      var i, k :| 0 <= i < k < |jobs[1..]| && jobs[1..][i] == x && jobs[1..][k] == y;
      assert jobs[i + 1] == x && jobs[k + 1] == y;
    }
  }

  lemma InOrderOfInOrder(a: seq<string>, b: seq<string>, c: seq<string>)
    requires InOrder(a, b) && InOrder(b, c)
    ensures InOrder(a, c)
  {
    forall i, k | 0 <= i < k < |a| ensures Before(c, a[i], a[k]) {
      assert Before(b, a[i], a[k]);
      hide InOrder;
      var m, n :| 0 <= m < n < |b| && b[m] == a[i] && b[n] == a[k];
      assert Before(c, b[m], b[n]) by { assert InOrder(b, c); BeforeOf(b, c, m, n); }
      hide Before;
    }
  }

  lemma BeforeOf(b: seq<string>, c: seq<string>, m: nat, n: nat)
    requires InOrder(b, c) && m < n < |b|
    ensures Before(c, b[m], b[n])
  {
    hide Before;
  }

  lemma KeptPlan(wf: Workflow, names: seq<string>, among: bool)
    ensures InOrder(Keep(Selectable(wf), names, among), wf.order)
    ensures InOrder(Selectable(wf), wf.order)
    ensures forall j :: j in Keep(Selectable(wf), names, among) <==> Offers(wf, j) && (j in names) == among
  {
    KeepInOrder(wf.order, NOT_SELECTABLE, false);
    KeepInOrder(Selectable(wf), names, among);
    InOrderOfInOrder(Keep(Selectable(wf), names, among), Selectable(wf), wf.order);
    forall j ensures j in Keep(Selectable(wf), names, among) <==> Offers(wf, j) && (j in names) == among {
      KeptIff(Selectable(wf), names, among, j);
      OfferedJobs(wf, j);
    }
  }

  lemma TierRuns(tier: Tier, asked: seq<string>, wf: Workflow)
    requires tier != Partial
    ensures var jobs := JobsOf(tier, Selectable(wf));
            (forall j :: j in jobs <==> Offers(wf, j) && Runs(tier, asked, j)) && InOrder(jobs, wf.order)
  {
    hide Keep, InOrder, Offers, Selectable;
    match tier {
      case Release => EveryRuns(wf);
      case Full => KeptPlan(wf, MERGE_OMITS, false);
      case Pr => KeptPlan(wf, PR_JOBS, true);
      case Noop => EmptyInOrder(wf.order);
    }
  }

  lemma EveryRuns(wf: Workflow)
    ensures (forall j :: j in Selectable(wf) <==> Offers(wf, j)) && InOrder(Selectable(wf), wf.order)
  {
    KeptPlan(wf, [], true);
    hide Keep, InOrder, Offers, Selectable;
    forall j ensures j in Selectable(wf) <==> Offers(wf, j) {
      OfferedJobs(wf, j);
    }
  }

  lemma EmptyInOrder(order: seq<string>)
    ensures InOrder([], order)
  {
  }

  lemma PartialRuns(asked: seq<string>, wf: Workflow)
    ensures var jobs := Keep(Selectable(wf), asked, true);
            (forall j :: j in jobs <==> Offers(wf, j) && Runs(Partial, asked, j)) && InOrder(jobs, wf.order)
  {
    KeptPlan(wf, asked, true);
    hide Keep, InOrder, Offers, Selectable;
  }

  /** Every plan is its event's tier with that tier's jobs, and every refusal is justified. */
  lemma PlanMeans(req: Request, wf: Workflow)
    requires IsWorkflow(wf)
    ensures match PlanOf(req, wf) case Ok(p) => Planned(req, wf, p) case Err(e) => Justified(req, wf, e)
  {
    if PlanOf(req, wf).Ok? {
      PlanGets(req, wf);
      PlanRuns(req, wf);
      hide PlanOf, Gets, Offers, Runs, InOrder;
    } else {
      PlanRefuses(req, wf);
    }
  }

  lemma PlanGets(req: Request, wf: Workflow)
    requires IsWorkflow(wf) && PlanOf(req, wf).Ok?
    ensures Gets(req, PlanOf(req, wf).value.tier)
  {
    EventsDiffer();
    ReviewIsGot(req, Selectable(wf));
    hide PlanPullRequest, ReviewGets, Words, Selectable, JobsOf, Keep, Unknown, UnmetJob;
  }

  lemma ReviewIsGot(req: Request, every: seq<string>)
    ensures PlanPullRequest(req, every).Ok? && ReviewGets(req, PlanPullRequest(req, every).value.tier)
  {
    if req.paths.Some? {
      PathTierMeans(req.paths.value);
    }
    hide PathTier, Classify, Labels, JobsOf;
  }

  lemma PlanRuns(req: Request, wf: Workflow)
    requires IsWorkflow(wf) && PlanOf(req, wf).Ok?
    ensures var p := PlanOf(req, wf).value;
            (forall j :: j in p.jobs <==> Offers(wf, j) && Runs(p.tier, Words(req.jobs), j))
            && InOrder(p.jobs, wf.order)
  {
    var p := PlanOf(req, wf).value;
    PlanIsATier(req, wf);
    if p.tier == Partial {
      PartialRuns(Words(req.jobs), wf);
      hide PathTier, Words, Labels, Selectable, JobsOf, Keep, InOrder, Offers, Runs;
    } else {
      TierRuns(p.tier, Words(req.jobs), wf);
      hide PlanOf, Words, JobsOf, Selectable, InOrder, Offers, Runs;
    }
  }

  lemma PlanRefuses(req: Request, wf: Workflow)
    requires IsWorkflow(wf) && PlanOf(req, wf).Err?
    ensures Justified(req, wf, PlanOf(req, wf).error)
  {
    EventsDiffer();
    AskedRefuses(Words(req.jobs), wf);
    TiersRefuse(wf);
    hide PathTier, Words, Labels, Selectable, JobsOf, Unknown, Offers, Lacks, PlanAsked;
  }

  lemma TiersRefuse(wf: Workflow)
    ensures var missing := Unknown(PR_JOBS + MERGE_OMITS, Selectable(wf));
            missing.Some? ==> missing.value in ["plan-test", "lint-test", "fuzz-smoke", "native-macos"]
                              && !Offers(wf, missing.value)
  {
    KnownJobs(PR_JOBS + MERGE_OMITS, Selectable(wf));
    hide Selectable, Unknown, Offers;
    var missing := Unknown(PR_JOBS + MERGE_OMITS, Selectable(wf));
    if missing.Some? {
      OfferedJobs(wf, missing.value);
    }
  }

  lemma AskedRefuses(asked: seq<string>, wf: Workflow)
    requires IsWorkflow(wf)
    ensures match PlanAsked(asked, wf)
            case Ok(_) => true
            case Err(UnknownJob(j)) => j in asked && !Offers(wf, j)
            case Err(e) => e.Unmet? && Lacks(asked, wf, e.job, e.need)
  {
    var every := Selectable(wf);
    KnownJobs(asked, every);
    hide Selectable, Unknown, Offers, UnmetJob, Keep;
    if Within(asked, every) {
      forall j | j in asked ensures j in wf.needs { SelectableJob(wf, j); }
      UnmetIsReal(asked, wf.needs, asked);
    } else {
      OfferedJobs(wf, Unknown(asked, every).value);
    }
  }

  lemma {:induction false} UnmetNeedIsReal(needs: seq<string>, asked: seq<string>)
    ensures var n := UnmetNeed(needs, asked); n.Some? ==> n.value in needs && !Met(n.value, asked)
  {
    hide Met;
    if needs != [] {
      UnmetNeedIsReal(needs[1..], asked);
    }
  }

  lemma {:induction false} UnmetIsReal(jobs: seq<string>, needs: map<string, seq<string>>, asked: seq<string>)
    requires forall j | j in jobs :: j in needs
    ensures match UnmetJob(jobs, needs, asked)
            case None => true
            case Some(e) => e.Unmet? && e.job in jobs && e.need in needs[e.job] && !Met(e.need, asked)
  {
    hide Met;
    if jobs != [] {
      UnmetNeedIsReal(needs[jobs[0]], asked);
      UnmetIsReal(jobs[1..], needs, asked);
    }
  }

  method FirstUnknown(names: seq<string>, known: seq<string>) returns (unknown: Option<string>)
    ensures unknown == Unknown(names, known)
  {
    assert names[0..] == names;
    for i := 0 to |names|
      invariant Unknown(names, known) == Unknown(names[i..], known)
    {
      assert names[i..][1..] == names[i + 1..];
      if names[i] !in known {
        return Some(names[i]);
      }
    }
    unknown := None;
  }

  method FirstUnmet(asked: seq<string>, needs: map<string, seq<string>>) returns (unmet: Option<Refusal>)
    requires forall j | j in asked :: j in needs
    ensures unmet == UnmetJob(asked, needs, asked)
  {
    assert asked[0..] == asked;
    for i := 0 to |asked|
      invariant UnmetJob(asked, needs, asked) == UnmetJob(asked[i..], needs, asked)
    {
      assert asked[i..][1..] == asked[i + 1..];
      var ns := needs[asked[i]];
      assert ns[0..] == ns;
      for k := 0 to |ns|
        invariant UnmetNeed(ns, asked) == UnmetNeed(ns[k..], asked)
      {
        assert ns[k..][1..] == ns[k + 1..];
        if ns[k] !in NOT_SELECTABLE && ns[k] !in asked {
          return Some(Unmet(asked[i], ns[k]));
        }
      }
    }
    unmet := None;
  }

  /** The planner, in the order its source asks: refusals and early answers
      first, then the labels, and the changed paths last. */
  method MakePlan(req: Request, wf: Workflow) returns (r: Result<Plan, Refusal>)
    requires IsWorkflow(wf)
    ensures r == PlanOf(req, wf)
    ensures match r case Ok(p) => Planned(req, wf, p) case Err(e) => Justified(req, wf, e)
  {
    PlanMeans(req, wf);
    hide Planned, Justified;
    hide PathTier, Words, Labels, Selectable, JobsOf, Keep;
    var every := Selectable(wf);
    var missing := FirstUnknown(PR_JOBS + MERGE_OMITS, every);
    if missing.Some? {
      return Err(NoSuchJob(missing.value));
    }
    var labels := Labels(req.labels);
    var asked := Words(req.jobs);
    var ev := if req.event == "" then "workflow_dispatch" else req.event;
    EventsDiffer();
    if ev == "pull_request" && req.action == "labeled" && req.added !in [FULL_LABEL, RELEASE_LABEL] {
      return Ok(Plan(Noop, JobsOf(Noop, every)));
    }
    if ev == "pull_request" && req.action == "labeled" && req.added == FULL_LABEL && RELEASE_LABEL in labels {
      return Ok(Plan(Noop, JobsOf(Noop, every)));
    }
    if ev == "workflow_dispatch" && asked != [] && req.tier != "" {
      return Err(JobsAndTier);
    }
    if ev == "workflow_dispatch" && req.tier != "" && req.tier !in ["full", "release"] {
      return Err(NoSuchTier(req.tier));
    }
    if ev == "workflow_dispatch" && asked != [] {
      var unknown := FirstUnknown(asked, every);
      if unknown.Some? {
        return Err(UnknownJob(unknown.value));
      }
      KnownJobs(asked, every);
      forall j | j in asked ensures j in wf.needs { SelectableJob(wf, j); }
      var unmet := FirstUnmet(asked, wf.needs);
      if unmet.Some? {
        return Err(unmet.value);
      }
      return Ok(Plan(Partial, Keep(every, asked, true)));
    }
    if ev == "workflow_dispatch" && req.tier != "" {
      var tier := if req.tier == "release" then Release else Full;
      return Ok(Plan(tier, JobsOf(tier, every)));
    }
    if ev == "schedule" {
      return Ok(Plan(Release, JobsOf(Release, every)));
    }
    if ev != "pull_request" {
      return Ok(Plan(Full, JobsOf(Full, every)));
    }
    if RELEASE_LABEL in labels {
      return Ok(Plan(Release, JobsOf(Release, every)));
    }
    if FULL_LABEL in labels {
      return Ok(Plan(Full, JobsOf(Full, every)));
    }
    if req.paths.None? {
      return Ok(Plan(Full, JobsOf(Full, every)));
    }
    var tier := TierOfPaths(req.paths.value);
    r := Ok(Plan(tier, JobsOf(tier, every)));
  }

  // ------------------------------------------------------------- verdict --

  /** The plan's list of jobs as the run hands it on; an empty output is left out. */
  datatype JobList = LeftOut | Unreadable | Listed(jobs: seq<string>)

  datatype PlanJob = PlanJob(result: string, tier: string, jobs: JobList)

  /** A finished run as the `tier` job sees it: the plan, and the other jobs' results. */
  datatype Needs = Needs(plan: Option<PlanJob>, every: seq<string>, results: map<string, string>)

  function Chosen(jobs: JobList): Option<seq<string>> {
    match jobs case LeftOut => Some([]) case Unreadable => None case Listed(js) => Some(js)
  }

  function Wanted(j: string, chosen: seq<string>): string {
    if j in chosen then "success" else "skipped"
  }

  predicate Went(j: string, chosen: seq<string>, results: map<string, string>) {
    j in results && results[j] == Wanted(j, chosen)
  }

  /** A green run: the plan succeeded and named a tier and that tier's jobs
      (any jobs, if partial), each chosen job succeeded, every other was skipped. */
  predicate Green(n: Needs) {
    n.plan.Some? && n.plan.value.result == "success" && TierNamed(n.plan.value.tier).Some?
    && Chosen(n.plan.value.jobs).Some?
    && var tier, chosen := TierNamed(n.plan.value.tier).value, Chosen(n.plan.value.jobs).value;
       (if tier == Partial then chosen != [] else multiset(chosen) == multiset(JobsOf(tier, n.every)))
       && Within(chosen, n.every)
       && forall j | j in n.every :: Went(j, chosen, n.results)
  }

  method CountWrong(every: seq<string>, chosen: seq<string>, results: map<string, string>) returns (bad: nat)
    ensures bad == 0 <==> forall j | j in every :: Went(j, chosen, results)
  {
    bad := 0;
    for i := 0 to |every|
      invariant bad == 0 <==> forall k :: 0 <= k < i ==> Went(every[k], chosen, results)
    {
      var job := every[i];
      var want := if job in chosen then "success" else "skipped";
      var ok := job in results && results[job] == want;
      bad := bad + if ok then 0 else 1;
    }
  }

  /** Two lists sort alike exactly when they hold the same jobs. */
  lemma SortsAlike(a: seq<string>, b: seq<string>)
    ensures Sorting.Sort(Sorting.StrLeq, a) == Sorting.Sort(Sorting.StrLeq, b) <==> multiset(a) == multiset(b)
  {
    Sorting.StrLeqIsTotal();
    Sorting.SortOfPermutation(Sorting.StrLeq, a, b);
  }

  method Verdict(n: Needs) returns (code: int)
    ensures code == if Green(n) then 0 else 1
  {
    hide JobsOf, TierNamed, Went, Within, Keep;
    if n.plan.None? || n.plan.value.result != "success" {
      return 1;
    }
    var tier := TierNamed(n.plan.value.tier);
    if tier.None? {
      return 1;
    }
    var jobs := Chosen(n.plan.value.jobs);
    if jobs.None? {
      return 1;
    }
    var chosen := jobs.value;
    var bad := 0;
    SortsAlike(chosen, JobsOf(tier.value, n.every));
    if tier.value == Partial {
      if chosen == [] {
        bad := bad + 1;
      }
    } else if Sorting.Sort(Sorting.StrLeq, chosen) != Sorting.Sort(Sorting.StrLeq, JobsOf(tier.value, n.every)) {
      bad := bad + 1;
    }
    var wrong := CountWrong(n.every, chosen, n.results);
    bad := bad + wrong;
    var missing := Keep(chosen, n.every, false);
    MissingIff(chosen, n.every);
    if missing != [] {
      bad := bad + 1;
    }
    code := if bad > 0 then 1 else 0;
  }

  lemma MissingIff(chosen: seq<string>, every: seq<string>)
    ensures Keep(chosen, every, false) == [] <==> Within(chosen, every)
  {
    forall j ensures j in Keep(chosen, every, false) <==> j in chosen && j !in every {
      KeptIff(chosen, every, false, j);
    }
    if Keep(chosen, every, false) != [] {
      assert Keep(chosen, every, false)[0] in Keep(chosen, every, false);
    }
  }

  // -------------------------------------------------------- main results --

  /** What any plan chooses, it can hand to the verdict: its tier's jobs, or
      for a partial run some jobs, all of them selectable. */
  lemma PlanIsATier(req: Request, wf: Workflow)
    requires IsWorkflow(wf) && PlanOf(req, wf).Ok?
    ensures var p := PlanOf(req, wf).value;
            Within(p.jobs, Selectable(wf))
            && (if p.tier == Partial then p.jobs != [] else p.jobs == JobsOf(p.tier, Selectable(wf)))
  {
    hide PathTier, Words, Labels, Selectable, JobsOf;
    var every := Selectable(wf);
    var p := PlanOf(req, wf).value;
    if p.tier == Partial {
      AskedJobs(Words(req.jobs), every);
    } else {
      TierJobs(p.tier, every);
    }
  }

  lemma TierJobs(tier: Tier, every: seq<string>)
    ensures Within(JobsOf(tier, every), every)
  {
    forall j | j in JobsOf(tier, every) ensures j in every {
      KeptIff(every, MERGE_OMITS, false, j);
      KeptIff(every, PR_JOBS, true, j);
    }
  }

  lemma AskedJobs(asked: seq<string>, every: seq<string>)
    ensures Within(Keep(every, asked, true), every)
    ensures asked != [] && Unknown(asked, every).None? ==> Keep(every, asked, true) != []
  {
    KnownJobs(asked, every);
    forall j ensures j in Keep(every, asked, true) <==> j in every && j in asked {
      KeptIff(every, asked, true, j);
    }
    assert asked != [] ==> asked[0] in asked;
  }

  /** Planner and verdict agree: for every event that is not refused, whatever
      order the verdict's job list is in, the run is green exactly when the
      plan succeeded, the planned jobs succeeded and all others were skipped. */
  lemma PlannedRunIsGreen(req: Request, wf: Workflow, jobs: JobList, n: Needs)
    requires IsWorkflow(wf) && PlanOf(req, wf).Ok?
    requires jobs == Listed(PlanOf(req, wf).value.jobs) || (jobs == LeftOut && PlanOf(req, wf).value.jobs == [])
    requires n.plan.Some? && n.plan.value.tier == TierName(PlanOf(req, wf).value.tier) && n.plan.value.jobs == jobs
    requires multiset(n.every) == multiset(Selectable(wf))
    ensures Green(n) <==>
              n.plan.value.result == "success" &&
              forall j | j in Selectable(wf) :: Went(j, PlanOf(req, wf).value.jobs, n.results)
  {
    var p := PlanOf(req, wf).value;
    PlanIsATier(req, wf);
    hide PlanOf, JobsOf, TierNamed, TierName, Selectable, Went, Within;
    NamedBack(p.tier);
    JobsOfPermutation(p.tier, n.every, Selectable(wf));
    SameJobs(n.every, Selectable(wf), p.jobs);
  }

  lemma SameJobs(a: seq<string>, b: seq<string>, chosen: seq<string>)
    requires multiset(a) == multiset(b)
    ensures (forall j :: j in a <==> j in b) && (Within(chosen, a) <==> Within(chosen, b))
  {
    forall j ensures j in a <==> j in b {
      assert j in multiset(a) <==> j in multiset(b);
    }
  }

  lemma {:induction false} DistinctIsOnce(s: seq<string>)
    ensures Distinct(s) <==> forall x :: multiset(s)[x] <= 1
  {
    if s != [] {
      var head, tail := s[0], s[1..];
      DistinctIsOnce(tail);
      assert s == [head] + tail && multiset(s) == multiset{head} + multiset(tail);
      assert Distinct(s) <==> Distinct(tail) && head !in tail by { DistinctHead(head, tail); }
      assert head in tail <==> head in multiset(tail);
      hide Distinct;
      if forall x :: multiset(s)[x] <= 1 {
        forall x ensures multiset(tail)[x] <= 1 {
          assert multiset(s)[x] <= 1;
        }
        assert multiset(s)[head] <= 1;
      }
    }
  }

  lemma DistinctHead(head: string, tail: seq<string>)
    ensures Distinct([head] + tail) <==> Distinct(tail) && head !in tail
  {
    var s := [head] + tail;
    if Distinct(s) {
      forall i, j | 0 <= i < j < |tail| ensures tail[i] != tail[j] {
        assert s[i + 1] != s[j + 1];
      }
      forall j | 0 <= j < |tail| ensures tail[j] != head {
        assert s[0] != s[j + 1];
      }
    }
  }

  /** The jobs chosen are a tier's, each once. */
  predicate Chooses(tier: Tier, every: seq<string>, chosen: seq<string>) {
    Distinct(chosen) && (forall j | j in every :: j in chosen <==> Runs(tier, [], j)) && Within(chosen, every)
  }

  lemma TierJobsOnce(tier: Tier, every: seq<string>, j: string)
    requires tier != Partial
    ensures multiset(JobsOf(tier, every))[j] == if Runs(tier, [], j) then multiset(every)[j] else 0
  {
    KeptJobs(every, MERGE_OMITS, false, j);
    KeptJobs(every, PR_JOBS, true, j);
    hide Keep;
  }

  lemma ChoiceMeans(tier: Tier, every: seq<string>, chosen: seq<string>)
    requires tier != Partial && Distinct(every)
    ensures multiset(chosen) == multiset(JobsOf(tier, every)) <==> Chooses(tier, every, chosen)
  {
    DistinctIsOnce(every);
    DistinctIsOnce(chosen);
    hide JobsOf, Runs, Distinct;
    var jobs := JobsOf(tier, every);
    if multiset(chosen) == multiset(jobs) {
      forall j ensures multiset(chosen)[j] <= 1 && (j in chosen <==> j in every && Runs(tier, [], j)) {
        TierJobsOnce(tier, every, j);
        assert (j in chosen <==> j in multiset(chosen)) && (j in every <==> j in multiset(every));
      }
    }
    if Chooses(tier, every, chosen) {
      forall j ensures multiset(chosen)[j] == multiset(jobs)[j] {
        TierJobsOnce(tier, every, j);
        assert (j in chosen <==> j in multiset(chosen)) && (j in every <==> j in multiset(every));
      }
    }
  }

  /** A green run, job by job: the plan succeeded and named one of the five
      tiers and its jobs, each once (a partial one any jobs there are), every
      chosen job succeeded and every other one was skipped. */
  lemma GreenMeans(n: Needs, chosen: seq<string>)
    requires Distinct(n.every)
    requires n.plan.Some? && (n.plan.value.jobs == Listed(chosen) || (n.plan.value.jobs == LeftOut && chosen == []))
    ensures Green(n) <==>
              n.plan.value.result == "success"
              && n.plan.value.tier in ["release", "full", "pr", "noop", "partial"]
              && (if n.plan.value.tier == "partial" then chosen != [] && Within(chosen, n.every)
                  else Chooses(TierNamed(n.plan.value.tier).value, n.every, chosen))
              && forall j | j in n.every ::
                   j in n.results && n.results[j] == if j in chosen then "success" else "skipped"
  {
    var tier := TierNamed(n.plan.value.tier);
    NamedTiers(n.plan.value.tier);
    hide TierNamed, JobsOf, Distinct, Runs, Within;
    if tier.Some? && tier.value != Partial {
      ChoiceMeans(tier.value, n.every, chosen);
    }
  }

  lemma NamedTiers(name: string)
    ensures TierNamed(name).Some? <==> name in ["release", "full", "pr", "noop", "partial"]
    ensures TierNamed(name) == Some(Partial) <==> name == "partial"
  {
    assert "partial"[0] == 'p' && "pr"[0] == 'p' && "release"[0] == 'r' && "full"[0] == 'f' && "noop"[0] == 'n';
    assert |"pr"| != |"partial"|;
  }

  /** Any one result changed turns a green run red. */
  lemma OneResultChanged(n: Needs, j: string, result: string)
    requires Green(n) && j in n.every && result != n.results[j]
    ensures !Green(n.(results := n.results[j := result]))
  {
    assert Went(j, Chosen(n.plan.value.jobs).value, n.results);
    assert !Went(j, Chosen(n.plan.value.jobs).value, n.results[j := result]);
  }

  /** A partial plan is closed: whatever a chosen job needs is chosen, or is not selectable. */
  lemma PartialIsClosed(asked: seq<string>, wf: Workflow, j: string, need: string)
    requires IsWorkflow(wf) && PlanAsked(asked, wf).Ok?
    requires j in PlanAsked(asked, wf).value.jobs && j in wf.needs && need in wf.needs[j]
    requires need in Selectable(wf)
    ensures need in PlanAsked(asked, wf).value.jobs
  {
    var every := Selectable(wf);
    KeptIff(every, asked, true, j);
    KeptIff(every, asked, true, need);
    SelectableJob(wf, need);
    KnownJobs(asked, every);
    forall k | k in asked ensures k in wf.needs { SelectableJob(wf, k); }
    JobsMet(asked, wf.needs, asked);
  }

  lemma {:induction false} NeedsMet(needs: seq<string>, asked: seq<string>)
    ensures UnmetNeed(needs, asked).None? <==> forall n | n in needs :: Met(n, asked)
  {
    if needs != [] {
      assert needs == [needs[0]] + needs[1..];
      NeedsMet(needs[1..], asked);
    }
  }

  lemma {:induction false} JobsMet(jobs: seq<string>, needs: map<string, seq<string>>, asked: seq<string>)
    requires forall j | j in jobs :: j in needs
    ensures UnmetJob(jobs, needs, asked).None? <==> forall j | j in jobs :: forall n | n in needs[j] :: Met(n, asked)
  {
    if jobs != [] {
      assert jobs == [jobs[0]] + jobs[1..];
      JobsMet(jobs[1..], needs, asked);
      NeedsMet(needs[jobs[0]], asked);
    }
  }

  /** A push to a pull request that carries neither label, its paths readable. */
  predicate IsPush(req: Request) {
    req.event == "pull_request" && req.action != "labeled"
    && FULL_LABEL !in Labels(req.labels) && RELEASE_LABEL !in Labels(req.labels)
  }

  /** Adding paths to a push never removes a job, and the two changes' tiers join. */
  lemma MorePathsMoreJobs(req: Request, wf: Workflow, a: seq<string>, b: seq<string>)
    requires IsWorkflow(wf) && IsPush(req) && a != [] && b != []
    requires Within(PR_JOBS + MERGE_OMITS, Selectable(wf))
    ensures var one := PlanOf(req.(paths := Some(a)), wf);
            var both := PlanOf(req.(paths := Some(a + b)), wf);
            one.Ok? && both.Ok? && Within(one.value.jobs, both.value.jobs)
            && both.value.tier == Join(PathTier(a), PathTier(b))
  {
    hide PathTier, Labels, JobsOf, Selectable;
    KnownJobs(PR_JOBS + MERGE_OMITS, Selectable(wf));
    UnionIsJoin(a, b);
    TiersNest(PathTier(a), PathTier(a + b), Selectable(wf));
  }

  ghost predicate LeavesOut(asked: seq<string>, wf: Workflow) {
    exists j, need :: j in asked && j in wf.needs && need in wf.needs[j] && !Met(need, asked)
  }

  lemma AskedRefused(asked: seq<string>, wf: Workflow)
    requires IsWorkflow(wf)
    ensures PlanAsked(asked, wf).Err? <==> !Within(asked, Selectable(wf)) || LeavesOut(asked, wf)
  {
    hide Selectable, Met;
    KnownJobs(asked, Selectable(wf));
    if Within(asked, Selectable(wf)) {
      forall j | j in asked ensures j in wf.needs { SelectableJob(wf, j); }
      JobsMet(asked, wf.needs, asked);
    }
  }

  /** A plan is refused exactly when the workflow lacks a job the tiers name,
      or a dispatch asks for a tier beside jobs, for a tier no dispatch may
      have, for a job there is not, or for one without what it needs. */
  lemma RefusedIff(req: Request, wf: Workflow)
    requires IsWorkflow(wf)
    ensures PlanOf(req, wf).Err? <==>
              (!Within(PR_JOBS + MERGE_OMITS, Selectable(wf)) ||
               (EventOf(req) == "workflow_dispatch" &&
                ((req.tier != "" && (Words(req.jobs) != [] || (req.tier != "full" && req.tier != "release"))) ||
                 !Within(Words(req.jobs), Selectable(wf)) || LeavesOut(Words(req.jobs), wf))))
  {
    hide PathTier, Words, Labels, JobsOf, Selectable, LeavesOut, PlanAsked, EventOf;
    EventsDiffer();
    KnownJobs(PR_JOBS + MERGE_OMITS, Selectable(wf));
    AskedRefused(Words(req.jobs), wf);
    if Words(req.jobs) == [] {
      NothingLeftOut(wf);
    }
  }

  lemma NothingLeftOut(wf: Workflow)
    ensures !LeavesOut([], wf)
  {
  }
}
