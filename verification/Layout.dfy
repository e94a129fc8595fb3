// The screen-layout check that decides whether the user interface starts the daemon
// (apps/akraz/src/lib/layout/layoutMismatch.ts).
module Layout {
  import opened Wrappers
  import opened Geometry
  import Text

  // A JavaScript number: NaN and the infinities are the ones that are not finite.
  datatype Number = Finite(value: real) | NotFinite

  datatype Bounds = Bounds(x: Number, y: Number, width: Number, height: Number)

  datatype Topology = Topology(bounds: Bounds, scaleFactors: seq<Option<Number>>)

  datatype Status = Ready | NeedsAction | Limited

  datatype IssueCode =
    | MissingBinding
    | EmptyPeerId
    | UnknownPeer
    | DuplicateLocalEdge
    | MissingTopology
    | InvalidTopology
    | MixedDpi
  {
    predicate BlocksDaemonStart() { EmptyPeerId? || UnknownPeer? || DuplicateLocalEdge? }

    function Severity(): Status { if MissingTopology? || MixedDpi? then Limited else NeedsAction }
  }

  datatype Report = Report(
    status: Status, issues: seq<IssueCode>, validBindingCount: nat, bindingCount: nat, trustedPeerCount: nat,
    hasUsableTopology: bool)

  // String.prototype.trim. Its white space differs from Rust's: it includes U+FEFF but not U+0085.
  predicate IsWhitespace(c: char) {
    var n := c as int;
    || 0x09 <= n <= 0x0D || n == 0x20 || n == 0xA0 || n == 0x1680 || 0x2000 <= n <= 0x200A
    || n == 0x2028 || n == 0x2029 || n == 0x202F || n == 0x205F || n == 0x3000 || n == 0xFEFF
  }

  function Trim(s: string): string { Text.TrimBy(s, IsWhitespace) }

  // ---- Topology --------------------------------------------------------------------------------

  predicate IsUsable(topology: Option<Topology>) {
    && topology.Some?
    && var b := topology.value.bounds;
       && b.x.Finite? && b.y.Finite? && b.width.Finite? && b.height.Finite?
       && b.width.value > 0.0 && b.height.value > 0.0
  }

  // Math.round: ties go up.
  function Round(v: real): int { (v + 0.5).Floor }

  // The rounded scale factor of a monitor, when it reports a positive one.
  function ScaleOf(factor: Option<Number>): Option<int> {
    if factor.Some? && factor.value.Finite? && Round(factor.value.value) > 0
    then Some(Round(factor.value.value))
    else None
  }

  // The scale factor is a positive integer, the nearest one, and there is none for anything else.
  lemma {:induction false} ScaleIsTheNearestInteger(factor: Option<Number>)
    ensures match ScaleOf(factor)
      case Some(scale) =>
        && scale > 0 && factor.Some? && factor.value.Finite?
        && scale as real - 0.5 <= factor.value.value < scale as real + 0.5
      case None => factor.None? || factor.value.NotFinite? || factor.value.value < 0.5
  {
  }

  predicate HasMixedScales(factors: seq<Option<Number>>) {
    exists i, j :: 0 <= i < |factors| && 0 <= j < |factors| &&
      ScaleOf(factors[i]).Some? && ScaleOf(factors[j]).Some? && ScaleOf(factors[i]) != ScaleOf(factors[j])
  }

  // Collects the distinct scale factors; there are several exactly when two monitors differ.
  method HasMixedDpi(topology: Option<Topology>) returns (mixed: bool)
    ensures mixed <==> topology.Some? && HasMixedScales(topology.value.scaleFactors)
  {
    if topology.None? || |topology.value.scaleFactors| < 2 {
      return false;
    }

    var factors := topology.value.scaleFactors;
    var scales: set<int> := {};
    for k := 0 to |factors|
      invariant forall v :: v in scales <==> exists i :: 0 <= i < k && ScaleOf(factors[i]) == Some(v)
    {
      if ScaleOf(factors[k]).Some? {
        scales := scales + {ScaleOf(factors[k]).value};
      }
    }
    mixed := |scales| > 1;
    MixedExactly(factors, scales);
  }

  lemma {:induction false} MixedExactly(factors: seq<Option<Number>>, scales: set<int>)
    requires forall v :: v in scales <==> exists i :: 0 <= i < |factors| && ScaleOf(factors[i]) == Some(v)
    ensures |scales| > 1 <==> HasMixedScales(factors)
  {
    if |scales| > 1 {
      var a, b := TwoMembers(scales);
      var i :| 0 <= i < |factors| && ScaleOf(factors[i]) == Some(a);
      var j :| 0 <= j < |factors| && ScaleOf(factors[j]) == Some(b);
      assert ScaleOf(factors[i]) != ScaleOf(factors[j]);
    }
    if HasMixedScales(factors) {
      var i, j :| 0 <= i < |factors| && 0 <= j < |factors| &&
        ScaleOf(factors[i]).Some? && ScaleOf(factors[j]).Some? && ScaleOf(factors[i]) != ScaleOf(factors[j]);
      DifferentMembers(scales, ScaleOf(factors[i]).value, ScaleOf(factors[j]).value);
    }
  }

  lemma {:induction false} AMember<T>(s: set<T>) returns (a: T)
    requires s != {}
    ensures a in s
  {
    a :| a in s;
  }

  lemma {:induction false} TwoMembers(s: set<int>) returns (a: int, b: int)
    requires |s| > 1
    ensures a in s && b in s && a != b
  {
    a := AMember(s);
    assert |s| == |s - {a}| + 1;
    b := AMember(s - {a});
  }

  lemma {:induction false} DifferentMembers(s: set<int>, a: int, b: int)
    requires a in s && b in s && a != b
    ensures |s| > 1
  {
    assert b in s - {a} && |s| == |s - {a}| + 1;
  }

  // ---- Bindings --------------------------------------------------------------------------------

  predicate IsDuplicate(bindings: seq<EdgeBinding>, i: nat)
    requires i < |bindings|
  {
    exists j :: 0 <= j < i && bindings[j].localEdge == bindings[i].localEdge
  }

  predicate IsTrusted(binding: EdgeBinding, trusted: seq<string>) {
    Trim(binding.peerId) != "" && Trim(binding.peerId) in trusted
  }

  // The problem of one binding that is reported first.
  function ProblemOf(bindings: seq<EdgeBinding>, trusted: seq<string>, i: nat): Option<IssueCode>
    requires i < |bindings|
  {
    if Trim(bindings[i].peerId) == "" then Some(EmptyPeerId)
    else if Trim(bindings[i].peerId) !in trusted then Some(UnknownPeer)
    else if IsDuplicate(bindings, i) then Some(DuplicateLocalEdge)
    else None
  }

  function AddIssue(issues: seq<IssueCode>, code: IssueCode): seq<IssueCode> {
    if code in issues then issues else issues + [code]
  }

  function AddIf(issues: seq<IssueCode>, condition: bool, code: IssueCode): seq<IssueCode> {
    if condition then AddIssue(issues, code) else issues
  }

  // The issues of the bindings, in the order in which they are first met.
  function BindingIssues(bindings: seq<EdgeBinding>, trusted: seq<string>): seq<IssueCode> {
    if bindings == [] then []
    else
      var n := |bindings| - 1;
      var earlier := BindingIssues(bindings[..n], trusted);
      var peerId := Trim(bindings[n].peerId);
      if peerId == "" then AddIssue(earlier, EmptyPeerId)
      else
        AddIf(AddIf(earlier, peerId !in trusted, UnknownPeer), IsDuplicate(bindings, n), DuplicateLocalEdge)
  }

  function ValidCount(bindings: seq<EdgeBinding>, trusted: seq<string>): nat {
    if bindings == [] then 0
    else
      var n := |bindings| - 1;
      ValidCount(bindings[..n], trusted)
      + if IsTrusted(bindings[n], trusted) && !IsDuplicate(bindings, n) then 1 else 0
  }

  function TopologyIssue(topology: Option<Topology>): Option<IssueCode> {
    if topology.None? then Some(MissingTopology)
    else if !IsUsable(topology) then Some(InvalidTopology)
    else if HasMixedScales(topology.value.scaleFactors) then Some(MixedDpi)
    else None
  }

  function IssueList(bindings: seq<EdgeBinding>, trusted: seq<string>, topology: Option<Topology>): seq<IssueCode> {
    (if bindings == [] then [MissingBinding] else BindingIssues(bindings, trusted))
    + match TopologyIssue(topology) case None => [] case Some(code) => [code]
  }

  function StatusOf(issues: seq<IssueCode>): Status {
    if exists i :: 0 <= i < |issues| && issues[i].Severity() == NeedsAction then NeedsAction
    else if |issues| > 0 then Limited
    else Ready
  }

  function Analysis(bindings: seq<EdgeBinding>, trusted: seq<string>, topology: Option<Topology>): Report {
    var issues := IssueList(bindings, trusted, topology);
    Report(StatusOf(issues), issues, ValidCount(bindings, trusted), |bindings|, |trusted|, IsUsable(topology))
  }

  // The loop over the bindings.
  method AnalyzeBindings(bindings: seq<EdgeBinding>, trusted: seq<string>)
    returns (issues: seq<IssueCode>, validBindingCount: nat)
    ensures issues == BindingIssues(bindings, trusted) && validBindingCount == ValidCount(bindings, trusted)
  {
    var seen: set<ScreenEdge> := {};
    issues, validBindingCount := [], 0;
    for k := 0 to |bindings|
      invariant forall e :: e in seen <==> exists j :: 0 <= j < k && bindings[j].localEdge == e
      invariant issues == BindingIssues(bindings[..k], trusted)
      invariant validBindingCount == ValidCount(bindings[..k], trusted)
    {
      assert bindings[..k + 1][..k] == bindings[..k];
      var peerId := Trim(bindings[k].peerId);
      var isDuplicate := bindings[k].localEdge in seen;
      DuplicateInAPrefix(bindings, k + 1, k);
      seen := seen + {bindings[k].localEdge};
      if |peerId| == 0 {
        issues := AddIssue(issues, EmptyPeerId);
        continue;
      }
      var hasTrustedPeer := peerId in trusted;
      if !hasTrustedPeer {
        issues := AddIssue(issues, UnknownPeer);
      }
      if isDuplicate {
        issues := AddIssue(issues, DuplicateLocalEdge);
      }
      if hasTrustedPeer && !isDuplicate {
        validBindingCount := validBindingCount + 1;
      }
    }
    assert bindings[..|bindings|] == bindings;
  }

  lemma {:induction false} DuplicateInAPrefix(bindings: seq<EdgeBinding>, n: nat, k: nat)
    requires k < n <= |bindings|
    ensures IsDuplicate(bindings[..n], k) == IsDuplicate(bindings, k)
  {
  }

  method AnalyzeLayoutMismatch(bindings: seq<EdgeBinding>, trusted: seq<string>, topology: Option<Topology>)
    returns (report: Report)
    ensures report == Analysis(bindings, trusted, topology)
  {
    var issues, validBindingCount := AnalyzeBindings(bindings, trusted);
    if |bindings| == 0 {
      issues := [MissingBinding];
    }
    BindingIssuesAreAboutBindings(bindings, trusted);
    var mixed := HasMixedDpi(topology);
    assert issues + [] == issues;
    if topology.None? {
      issues := AddIssue(issues, MissingTopology);
    } else if !IsUsable(topology) {
      issues := AddIssue(issues, InvalidTopology);
    } else if mixed {
      issues := AddIssue(issues, MixedDpi);
    }
    report := Report(
      StatusOf(issues), issues, validBindingCount, |bindings|, |trusted|, IsUsable(topology));
  }

  lemma {:induction false} BindingIssuesAreAboutBindings(bindings: seq<EdgeBinding>, trusted: seq<string>)
    ensures forall code :: code in BindingIssues(bindings, trusted) ==> code.BlocksDaemonStart()
  {
    if bindings == [] {
    } else {
      BindingIssuesAreAboutBindings(bindings[..|bindings| - 1], trusted);
    }
  }

  // ---- What the check guarantees ---------------------------------------------------------------

  function FirstBlocking(issues: seq<IssueCode>): Option<IssueCode> {
    if issues == [] then None
    else if issues[0].BlocksDaemonStart() then Some(issues[0])
    else FirstBlocking(issues[1..])
  }

  function FirstStartBlockingIssue(report: Report): Option<IssueCode> { FirstBlocking(report.issues) }

  // The first problem of the first problematic binding.
  function FirstProblem(bindings: seq<EdgeBinding>, trusted: seq<string>): Option<IssueCode> {
    if bindings == [] then None
    else
      var n := |bindings| - 1;
      var earlier := FirstProblem(bindings[..n], trusted);
      if earlier.Some? then earlier else ProblemOf(bindings, trusted, n)
  }

  lemma {:induction false} FirstProblemIsFirst(bindings: seq<EdgeBinding>, trusted: seq<string>) returns (index: nat)
    ensures index <= |bindings|
    ensures forall k :: 0 <= k < index ==> ProblemOf(bindings, trusted, k).None?
    ensures index < |bindings| ==> ProblemOf(bindings, trusted, index).Some?
    ensures FirstProblem(bindings, trusted)
         == if index < |bindings| then ProblemOf(bindings, trusted, index) else None
  {
    index := 0;
    if bindings != [] {
      var n := |bindings| - 1;
      var init := bindings[..n];
      index := FirstProblemIsFirst(init, trusted);
      forall k | 0 <= k < n ensures ProblemOf(init, trusted, k) == ProblemOf(bindings, trusted, k) {
        SameProblemInAPrefix(bindings, trusted, n, k);
      }
      if index == n && ProblemOf(bindings, trusted, n).None? {
        index := n + 1;
      }
    }
  }

  lemma {:induction false} SameProblemInAPrefix(bindings: seq<EdgeBinding>, trusted: seq<string>, n: nat, k: nat)
    requires k < n <= |bindings|
    ensures ProblemOf(bindings[..n], trusted, k) == ProblemOf(bindings, trusted, k)
  {
  }

  lemma {:induction false} BindingIssuesStartWithTheFirstProblem(bindings: seq<EdgeBinding>, trusted: seq<string>)
    ensures BindingIssues(bindings, trusted) == [] <==> FirstProblem(bindings, trusted).None?
    ensures BindingIssues(bindings, trusted) != [] ==>
      Some(BindingIssues(bindings, trusted)[0]) == FirstProblem(bindings, trusted)
  {
    if bindings == [] {
    } else {
      BindingIssuesStartWithTheFirstProblem(bindings[..|bindings| - 1], trusted);
    }
  }

  // The issue that blocks the start is the first problem of the first problematic binding; the
  // topology never blocks it.
  lemma {:induction false} BlockingIssueIsTheFirstProblem(
    bindings: seq<EdgeBinding>, trusted: seq<string>, topology: Option<Topology>)
    ensures FirstStartBlockingIssue(Analysis(bindings, trusted, topology)) == FirstProblem(bindings, trusted)
  {
    var issues := IssueList(bindings, trusted, topology);
    BindingIssuesAreAboutBindings(bindings, trusted);
    BindingIssuesStartWithTheFirstProblem(bindings, trusted);
    var own := BindingIssues(bindings, trusted);
    if own != [] {
      assert issues[0] == own[0] && own[0] in own;
    } else {
      NothingBlocks(issues);
    }
  }

  lemma {:induction false} NothingBlocks(issues: seq<IssueCode>)
    requires forall i :: 0 <= i < |issues| ==> !issues[i].BlocksDaemonStart()
    ensures FirstBlocking(issues) == None
  {
    if issues == [] {
    } else {
      NothingBlocks(issues[1..]);
    }
  }

  predicate EdgesAreDistinct(bindings: seq<EdgeBinding>) {
    forall i, j :: 0 <= i < j < |bindings| ==> bindings[i].localEdge != bindings[j].localEdge
  }

  predicate AllTrusted(bindings: seq<EdgeBinding>, trusted: seq<string>) {
    forall i :: 0 <= i < |bindings| ==> IsTrusted(bindings[i], trusted)
  }

  // Nothing blocks the start exactly when every binding names a trusted peer and no edge is bound
  // twice, which is also exactly when every binding was counted as valid.
  lemma {:induction false} UnblockedLayoutsExactly(
    bindings: seq<EdgeBinding>, trusted: seq<string>, topology: Option<Topology>)
    ensures var report := Analysis(bindings, trusted, topology);
      var unblocked := FirstStartBlockingIssue(report).None?;
      && (unblocked <==> EdgesAreDistinct(bindings) && AllTrusted(bindings, trusted))
      && (unblocked <==> report.validBindingCount == report.bindingCount)
  {
    BlockingIssueIsTheFirstProblem(bindings, trusted, topology);
    NoProblemExactly(bindings, trusted);
    CountedExactlyWithoutProblems(bindings, trusted);
  }

  lemma {:induction false} NoProblemExactly(bindings: seq<EdgeBinding>, trusted: seq<string>)
    ensures FirstProblem(bindings, trusted).None? <==> EdgesAreDistinct(bindings) && AllTrusted(bindings, trusted)
  {
    var index := FirstProblemIsFirst(bindings, trusted);
    if index == |bindings| {
      forall i, j | 0 <= i < j < |bindings| ensures bindings[i].localEdge != bindings[j].localEdge {
        assert ProblemOf(bindings, trusted, j).None?;
        assert !IsDuplicate(bindings, j);
      }
      forall i | 0 <= i < |bindings| ensures IsTrusted(bindings[i], trusted) {
        assert ProblemOf(bindings, trusted, i).None?;
      }
    } else {
      assert ProblemOf(bindings, trusted, index).Some?;
    }
  }

  // In an unblocked layout there are at most four bindings, and the core finds each by its edge.
  lemma {:induction false} UnblockedBindingsAreFound(
    bindings: seq<EdgeBinding>, trusted: seq<string>, topology: Option<Topology>)
    requires FirstStartBlockingIssue(Analysis(bindings, trusted, topology)).None?
    ensures |bindings| <= 4
    ensures forall i :: 0 <= i < |bindings| ==> FirstBinding(bindings, bindings[i].localEdge) == Some(bindings[i])
  {
    UnblockedLayoutsExactly(bindings, trusted, topology);
    DistinctEdgesAreFew(bindings);
    DistinctEdgesAreFound(bindings);
  }

  lemma {:induction false} DistinctEdgesAreFound(bindings: seq<EdgeBinding>)
    requires EdgesAreDistinct(bindings)
    ensures forall i :: 0 <= i < |bindings| ==> FirstBinding(bindings, bindings[i].localEdge) == Some(bindings[i])
  {
    forall i | 0 <= i < |bindings|
      ensures FirstBinding(bindings, bindings[i].localEdge) == Some(bindings[i])
    {
      var first := FirstBindingIsFirst(bindings, bindings[i].localEdge);
    }
  }

  lemma {:induction false} CountedExactlyWithoutProblems(bindings: seq<EdgeBinding>, trusted: seq<string>)
    ensures ValidCount(bindings, trusted) <= |bindings|
    ensures ValidCount(bindings, trusted) == |bindings| <==> FirstProblem(bindings, trusted).None?
  {
    if bindings == [] {
    } else {
      CountedExactlyWithoutProblems(bindings[..|bindings| - 1], trusted);
    }
  }

  lemma {:induction false} DistinctEdgesAreFew(bindings: seq<EdgeBinding>)
    ensures EdgesAreDistinct(bindings) ==> |bindings| <= 4
  {
    if |bindings| > 4 {
      FiveEdgesRepeat(bindings[0].localEdge, bindings[1].localEdge, bindings[2].localEdge, bindings[3].localEdge,
                      bindings[4].localEdge);
    }
  }

  lemma {:induction false} FiveEdgesRepeat(a: ScreenEdge, b: ScreenEdge, c: ScreenEdge, d: ScreenEdge, e: ScreenEdge)
    ensures a == b || a == c || a == d || a == e || b == c || b == d || b == e || c == d || c == e || d == e
  {
  }

  // A layout that starts and can cross somewhere.
  predicate IsWorkable(bindings: seq<EdgeBinding>, trusted: seq<string>) {
    bindings != [] && EdgesAreDistinct(bindings) && AllTrusted(bindings, trusted)
  }

  // The report is ready exactly for a workable layout on a usable, uniformly scaled desktop. It is
  // limited exactly for a workable layout on a desktop that is unknown or of mixed scale, and asks
  // for action in every other case.
  lemma {:induction false} StatusExactly(bindings: seq<EdgeBinding>, trusted: seq<string>, topology: Option<Topology>)
    ensures Analysis(bindings, trusted, topology).status ==
      if !IsWorkable(bindings, trusted) || (topology.Some? && !IsUsable(topology)) then NeedsAction
      else if topology.None? || HasMixedScales(topology.value.scaleFactors) then Limited
      else Ready
  {
    NoProblemExactly(bindings, trusted);
    BindingIssuesAreAboutBindings(bindings, trusted);
    BindingIssuesStartWithTheFirstProblem(bindings, trusted);
    var own, issues := BindingIssues(bindings, trusted), IssueList(bindings, trusted, topology);
    if bindings == [] {
      assert issues[0] == MissingBinding;
    } else if own != [] {
      assert issues[0] == own[0] && own[0] in own;
    } else if TopologyIssue(topology).Some? {
      assert issues == [TopologyIssue(topology).value];
      StatusOfOne(TopologyIssue(topology).value);
    }
  }

  lemma {:induction false} StatusOfOne(code: IssueCode)
    ensures StatusOf([code]) == code.Severity()
  {
    assert [code][0].Severity() == code.Severity();
  }

  // ---- What is reported ------------------------------------------------------------------------

  predicate HasBlankPeer(bindings: seq<EdgeBinding>) {
    exists i :: 0 <= i < |bindings| && Trim(bindings[i].peerId) == ""
  }

  predicate HasUnknownPeer(bindings: seq<EdgeBinding>, trusted: seq<string>) {
    exists i :: 0 <= i < |bindings| && Trim(bindings[i].peerId) != "" && Trim(bindings[i].peerId) !in trusted
  }

  // An edge that an earlier binding uses, too; one without a peer is not reported for it.
  predicate HasRepeatedEdge(bindings: seq<EdgeBinding>) {
    exists i, j :: 0 <= j < i < |bindings| && bindings[j].localEdge == bindings[i].localEdge
                && Trim(bindings[i].peerId) != ""
  }

  predicate NoRepetition(issues: seq<IssueCode>) { forall i, j :: 0 <= i < j < |issues| ==> issues[i] != issues[j] }

  // Each issue is reported once, and exactly if it is there; the issue of the topology comes last.
  lemma {:induction false} IssuesExactly(bindings: seq<EdgeBinding>, trusted: seq<string>, topology: Option<Topology>)
    ensures var issues := Analysis(bindings, trusted, topology).issues;
      var mixed := topology.Some? && IsUsable(topology) && HasMixedScales(topology.value.scaleFactors);
      && NoRepetition(issues)
      && (MissingBinding in issues <==> bindings == [])
      && (EmptyPeerId in issues <==> HasBlankPeer(bindings))
      && (UnknownPeer in issues <==> HasUnknownPeer(bindings, trusted))
      && (DuplicateLocalEdge in issues <==> HasRepeatedEdge(bindings))
      && (MissingTopology in issues <==> topology.None?)
      && (InvalidTopology in issues <==> topology.Some? && !IsUsable(topology))
      && (MixedDpi in issues <==> mixed)
      && (topology.None? || !IsUsable(topology) || mixed ==> !(issues[|issues| - 1].BlocksDaemonStart()))
  {
    BindingIssuesExactly(bindings, trusted);
    BindingIssuesAreAboutBindings(bindings, trusted);
    var own := if bindings == [] then [MissingBinding] else BindingIssues(bindings, trusted);
    match TopologyIssue(topology) {
      case None => assert own + [] == own;
      case Some(code) => AppendedOnce(own, code);
    }
  }

  lemma {:induction false} AppendedOnce(issues: seq<IssueCode>, code: IssueCode)
    requires NoRepetition(issues) && code !in issues
    ensures NoRepetition(issues + [code])
    ensures forall other :: other in issues + [code] <==> other in issues || other == code
  {
  }

  lemma {:induction false} AddedOnce(issues: seq<IssueCode>, condition: bool, code: IssueCode)
    requires NoRepetition(issues)
    ensures var added := AddIf(issues, condition, code);
      NoRepetition(added) && forall other :: other in added <==> other in issues || (condition && other == code)
  {
    if code !in issues {
      AppendedOnce(issues, code);
    }
  }

  lemma {:induction false} BindingIssuesExactly(bindings: seq<EdgeBinding>, trusted: seq<string>)
    ensures var issues := BindingIssues(bindings, trusted);
      && NoRepetition(issues)
      && (EmptyPeerId in issues <==> HasBlankPeer(bindings))
      && (UnknownPeer in issues <==> HasUnknownPeer(bindings, trusted))
      && (DuplicateLocalEdge in issues <==> HasRepeatedEdge(bindings))
  {
    if bindings == [] {
    } else {
      var n := |bindings| - 1;
      var earlier, peerId := BindingIssues(bindings[..n], trusted), Trim(bindings[n].peerId);
      BindingIssuesExactly(bindings[..n], trusted);
      OneMoreBinding(bindings, trusted);
      if peerId == "" {
        AddedOnce(earlier, true, EmptyPeerId);
      } else {
        AddedOnce(earlier, peerId !in trusted, UnknownPeer);
        AddedOnce(AddIf(earlier, peerId !in trusted, UnknownPeer), IsDuplicate(bindings, n), DuplicateLocalEdge);
      }
    }
  }

  lemma {:induction false} OneMoreBinding(bindings: seq<EdgeBinding>, trusted: seq<string>)
    requires bindings != []
    ensures var n := |bindings| - 1;
      var peerId := Trim(bindings[n].peerId);
      && (HasBlankPeer(bindings) <==> HasBlankPeer(bindings[..n]) || peerId == "")
      && (HasUnknownPeer(bindings, trusted) <==>
            HasUnknownPeer(bindings[..n], trusted) || (peerId != "" && peerId !in trusted))
      && (HasRepeatedEdge(bindings) <==> HasRepeatedEdge(bindings[..n]) || (peerId != "" && IsDuplicate(bindings, n)))
  {
    var n := |bindings| - 1;
    var init := bindings[..n];
    assert forall i :: 0 <= i < n ==> init[i] == bindings[i];
  }

  // The bindings that count: a trusted peer on an edge that no earlier binding uses.
  ghost function CountedAs(bindings: seq<EdgeBinding>, trusted: seq<string>): set<nat> {
    set i: nat | i < |bindings| && IsTrusted(bindings[i], trusted) && !IsDuplicate(bindings, i)
  }

  lemma {:induction false} CountsExactly(bindings: seq<EdgeBinding>, trusted: seq<string>, topology: Option<Topology>)
    ensures var report := Analysis(bindings, trusted, topology);
      && report.validBindingCount == |CountedAs(bindings, trusted)|
      && report.bindingCount == |bindings| && report.trustedPeerCount == |trusted|
      && (report.hasUsableTopology <==> topology.Some? && HasAPoint(topology.value.bounds))
  {
    ValidCountIsTheSize(bindings, trusted);
    if topology.Some? {
      UsableExactly(topology.value);
    }
  }

  lemma {:induction false} ValidCountIsTheSize(bindings: seq<EdgeBinding>, trusted: seq<string>)
    ensures ValidCount(bindings, trusted) == |CountedAs(bindings, trusted)|
  {
    if bindings == [] {
      assert CountedAs(bindings, trusted) == {};
    } else {
      var n: nat := |bindings| - 1;
      ValidCountIsTheSize(bindings[..n], trusted);
      CountedOneMore(bindings, trusted);
    }
  }

  lemma {:induction false} CountedOneMore(bindings: seq<EdgeBinding>, trusted: seq<string>)
    requires bindings != []
    ensures var n: nat := |bindings| - 1;
      var earlier := CountedAs(bindings[..n], trusted);
      && n !in earlier
      && CountedAs(bindings, trusted) ==
           if IsTrusted(bindings[n], trusted) && !IsDuplicate(bindings, n) then earlier + {n} else earlier
  {
    var n: nat := |bindings| - 1;
    var init := bindings[..n];
    forall i: nat | i < n
      ensures i in CountedAs(bindings, trusted) <==> i in CountedAs(init, trusted)
    {
      DuplicateInAPrefix(bindings, n, i);
      assert init[i] == bindings[i];
    }
  }

  // The bounds are finite and some point lies in them.
  ghost predicate HasAPoint(b: Bounds) {
    && b.x.Finite? && b.y.Finite? && b.width.Finite? && b.height.Finite?
    && exists px: real, py: real :: InBounds(b, px, py)
  }

  predicate InBounds(b: Bounds, px: real, py: real)
    requires b.x.Finite? && b.y.Finite? && b.width.Finite? && b.height.Finite?
  {
    && b.x.value <= px < b.x.value + b.width.value
    && b.y.value <= py < b.y.value + b.height.value
  }

  lemma {:induction false} UsableExactly(topology: Topology)
    ensures IsUsable(Some(topology)) <==> HasAPoint(topology.bounds)
  {
    var b := topology.bounds;
    if IsUsable(Some(topology)) {
      assert InBounds(b, b.x.value, b.y.value);
    }
  }
}
