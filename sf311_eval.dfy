/** The evaluation harness over normalised records: seven pass/fail checks and
    the aggregation of their totals, passes, pass rates and first failures.
    The three text patterns are the keyword patterns of the same names, so they
    are read through the transform's matcher. */
module Sf311Eval {
  import opened Strings
  import opened PyData
  import opened Ordering
  import opened Sf311Transform

  /** Python's `bool(text and pat.search(text))`: a truthy non-string text
      makes search raise TypeError. */
  function ContainsPattern(text: Value, pattern: string, matches: (string, string) -> bool): (r: Result<bool>)
    ensures !Truthy(text) ==> r == Success(false)
    ensures text.VStr? ==> r == Success(text.s != "" && matches(pattern, text.s))
    ensures r.Failure? <==> Truthy(text) && !text.VStr?
  {
    if !Truthy(text) then Success(false)
    else if text.VStr? then Success(matches(pattern, text.s))
    else Failure("TypeError")
  }

  /** A flag check: bool(r.get(flag)) agrees with a search of r.get("text"). */
  function CheckFlag(r: Dict, flag: string, pattern: string, matches: (string, string) -> bool): (ok: Result<bool>)
    ensures ok.Failure? <==> ContainsPattern(Get(r, "text"), pattern, matches).Failure?
    ensures ok.Success? ==>
      (ok.value <==> (Truthy(Get(r, flag)) <==> ContainsPattern(Get(r, "text"), pattern, matches).value))
  {
    var expected := ContainsPattern(Get(r, "text"), pattern, matches);
    if expected.Failure? then Failure(expected.error)
    else Success(Truthy(Get(r, flag)) == expected.value)
  }

  /** `"lying" in pos` for a string, list or dict; other values are not
      containers and raise TypeError. */
  function HasLying(pos: Value): (r: Result<bool>)
    ensures pos.VStr? ==> r == Success(Contains(pos.s, "lying"))
    ensures pos.VList? ==> r == Success(VStr("lying") in pos.items)
    ensures pos.VDict? ==> r == Success(HasKey(pos.entries, "lying"))
    ensures r.Failure? <==> !(pos.VStr? || pos.VList? || pos.VDict?)
  {
    match pos
    case VStr(s) => Success(Contains(s, "lying"))
    case VList(items) => Success(VStr("lying") in items)
    case VDict(entries) => Success(HasKey(entries, "lying"))
    case _ => Failure("TypeError")
  }

  /** `v in (True, None)`: equal to True (1 and 1.0 included) or None. */
  predicate TrueOrNone(v: Value)
  {
    PyEq(v, VBool(true)) || v == VNone
  }

  /** check_lying_consistency */
  function CheckLying(r: Dict): (ok: Result<bool>)
    ensures var pos := Or(Get(r, "tag_person_position"), VStr(""));
      ok == Success(false) <==> HasLying(pos) == Success(true) && !TrueOrNone(Get(r, "tag_lying_face_down"))
    ensures ok.Failure? <==> HasLying(Or(Get(r, "tag_person_position"), VStr(""))).Failure?
  {
    var contained := HasLying(Or(Get(r, "tag_person_position"), VStr("")));
    if contained.Failure? then Failure(contained.error)
    else if contained.value then Success(TrueOrNone(Get(r, "tag_lying_face_down")))
    else Success(true)
  }

  /** `v > 0`: a number compares, anything else raises TypeError. */
  function Positive(v: Value): (r: Result<bool>)
    ensures r.Success? <==> IsNumber(v)
    ensures r.Success? ==> (r.value <==> NumberValue(v) > 0.0)
  {
    if IsNumber(v) then Success(NumberValue(v) > 0.0) else Failure("TypeError")
  }

  /** check_tents_size_consistency */
  function CheckTentsSize(r: Dict): (ok: Result<bool>)
    ensures ok == Success(false) <==>
      Get(r, "tag_tents_present") == VBool(true) && IsNumber(Get(r, "tag_size_feet")) &&
      NumberValue(Get(r, "tag_size_feet")) <= 0.0
    ensures ok.Failure? <==>
      Get(r, "tag_tents_present") == VBool(true) && Get(r, "tag_size_feet") != VNone &&
      !IsNumber(Get(r, "tag_size_feet"))
  {
    var size := Get(r, "tag_size_feet");
    if Get(r, "tag_tents_present") == VBool(true) && size != VNone then Positive(size)
    else Success(true)
  }

  /** `True if v is None else (0 <= v <= hi)`; comparing a non-number raises. */
  function InBounds(v: Value, hi: real): (r: Result<bool>)
    ensures v == VNone ==> r == Success(true)
    ensures r.Failure? <==> v != VNone && !IsNumber(v)
    ensures IsNumber(v) ==> r == Success(0.0 <= NumberValue(v) <= hi)
  {
    if v == VNone then Success(true)
    else if IsNumber(v) then Success(0.0 <= NumberValue(v) <= hi)
    else Failure("TypeError")
  }

  const SizeBound: real := 400.0

  /** The test names, in the order the harness runs them. */
  const TestNames: seq<string> := ["kw_passed_out_flag", "kw_blocking_flag", "kw_private_property_flag",
    "lying_consistency", "tents_size_consistency", "size_feet_bounds", "num_people_bounds"]

  lemma TestNamesDistinct()
    ensures NoDup(TestNames)
  {
  }

  /** The test with index i applied to a record. */
  function RunTest(i: nat, r: Dict, matches: (string, string) -> bool): Result<bool>
    requires i < |TestNames|
  {
    if i == 0 then CheckFlag(r, "kw_passed_out", "passed_out", matches)
    else if i == 1 then CheckFlag(r, "kw_blocking", "blocking", matches)
    else if i == 2 then CheckFlag(r, "derived_is_private_property", "private_property", matches)
    else if i == 3 then CheckLying(r)
    else if i == 4 then CheckTentsSize(r)
    else if i == 5 then InBounds(Get(r, "tag_size_feet"), SizeBound)
    else InBounds(Get(r, "tag_num_people"), PeopleMax)
  }

  /** A record passes a test when the check returns True; a check that raises is
      a failure. */
  predicate Passes(i: nat, r: Dict, matches: (string, string) -> bool)
    requires i < |TestNames|
  {
    RunTest(i, r, matches) == Success(true)
  }

  function PassesFn(i: nat, matches: (string, string) -> bool): Dict -> bool
    requires i < |TestNames|
  {
    r => Passes(i, r, matches)
  }

  function FailsFn(i: nat, matches: (string, string) -> bool): Dict -> bool
    requires i < |TestNames|
  {
    r => !Passes(i, r, matches)
  }

  /** The first k elements (none for k <= 0). */
  function Take<T>(s: seq<T>, k: int): (r: seq<T>)
    ensures |r| == if k <= 0 then 0 else if |s| <= k then |s| else k
    ensures r <= s
  {
    if k <= 0 then [] else if |s| <= k then s else s[..k]
  }

  lemma TakePrefix<T>(a: seq<T>, b: seq<T>, k: int)
    requires a <= b
    ensures Take(a, k) <= Take(b, k)
  {
  }

  /** The failures a test keeps as examples: the first k failing records. */
  function Shown(records: seq<Dict>, i: nat, k: int, matches: (string, string) -> bool): seq<Dict>
    requires i < |TestNames|
  {
    Take(Filter(records, FailsFn(i, matches)), k)
  }

  /** (r.get("text") or "")[:160]; slicing anything but a string or a list raises. */
  function Snippet(text: Value): (r: Result<Value>)
    ensures r.Success? <==> !Truthy(text) || text.VStr? || text.VList?
    ensures r.Success? ==> (r.value.VStr? && |r.value.s| <= 160) || (r.value.VList? && |r.value.items| <= 160)
  {
    match Or(text, VStr(""))
    case VStr(s) => Success(VStr(if |s| <= 160 then s else s[..160]))
    case VList(items) => Success(VList(if |items| <= 160 then items else items[..160]))
    case _ => Failure("TypeError")
  }

  /** The example dictionary recorded for a failing record. */
  function ExampleOf(r: Dict): (e: Result<Dict>)
    ensures e.Success? <==> Snippet(Get(r, "text")).Success?
    ensures e.Success? ==> Get(e.value, "text_snippet") == Snippet(Get(r, "text")).value
  {
    var snippet := Snippet(Get(r, "text"));
    if snippet.Failure? then Failure(snippet.error)
    else
      var e := [("request_id", Get(r, "request_id")),
        ("text_snippet", snippet.value),
        ("tag_person_position", Get(r, "tag_person_position")),
        ("tag_lying_face_down", Get(r, "tag_lying_face_down")),
        ("tag_tents_present", Get(r, "tag_tents_present")),
        ("tag_size_feet", Get(r, "tag_size_feet")),
        ("kw_blocking", Get(r, "kw_blocking")),
        ("kw_passed_out", Get(r, "kw_passed_out")),
        ("derived_is_private_property", Get(r, "derived_is_private_property"))];
      GetAt(e, 1);
      Success(e)
  }

  /** The examples of a list of failing records, in order; the first record
      whose example cannot be built makes the whole list fail. */
  function Examples(rs: seq<Dict>): (r: Result<seq<Dict>>)
    ensures r.Success? ==> |r.value| == |rs|
  {
    if rs == [] then Success([])
    else
      var pre := Examples(rs[..|rs| - 1]);
      var e := ExampleOf(rs[|rs| - 1]);
      if pre.Failure? then pre
      else if e.Failure? then Failure(e.error)
      else Success(pre.value + [e.value])
  }

  lemma ExamplesSnoc(rs: seq<Dict>, x: Dict)
    ensures Examples(rs + [x]) ==
      if Examples(rs).Failure? then Examples(rs)
      else if ExampleOf(x).Failure? then Failure(ExampleOf(x).error)
      else Success(Examples(rs).value + [ExampleOf(x).value])
  {
    assert (rs + [x])[..|rs|] == rs;
  }

  /** Examples fail exactly when one of the records' examples does. */
  lemma {:induction false} ExamplesFailure(rs: seq<Dict>)
    ensures Examples(rs).Failure? <==> exists j :: 0 <= j < |rs| && ExampleOf(rs[j]).Failure?
  {
    if rs != [] {
      var pre := rs[..|rs| - 1];
      ExamplesFailure(pre);
      assert forall j :: 0 <= j < |pre| ==> pre[j] == rs[j];
      if ExampleOf(rs[|rs| - 1]).Failure? {
      } else {
        forall j | 0 <= j < |rs| && ExampleOf(rs[j]).Failure? ensures j < |pre| { }
      }
    }
  }

  /** The report: per test name, the totals, passes, pass rates and examples. */
  datatype Report = Report(
    totals: map<string, nat>,
    passes: map<string, nat>,
    passRates: map<string, Option<real>>,
    examplesFailed: map<string, seq<Dict>>)

  /** How one more record changes a test's passes and kept failures. */
  lemma StepFacts(s: seq<Dict>, r: Dict, i: nat, k: int, matches: (string, string) -> bool)
    requires i < |TestNames|
    ensures |Filter(s + [r], PassesFn(i, matches))| ==
      |Filter(s, PassesFn(i, matches))| + (if Passes(i, r, matches) then 1 else 0)
    ensures Shown(s + [r], i, k, matches) ==
      if !Passes(i, r, matches) && |Shown(s, i, k, matches)| < k then Shown(s, i, k, matches) + [r]
      else Shown(s, i, k, matches)
  {
    FilterSnoc(s, r, PassesFn(i, matches));
    FilterSnoc(s, r, FailsFn(i, matches));
  }

  /** The counters after the records of s: totals, passes and kept examples. */
  ghost predicate Tallied(s: seq<Dict>, i: nat, k: int, matches: (string, string) -> bool,
                          total: nat, passed: nat, examples: seq<Dict>)
    requires i < |TestNames|
  {
    total == |s| &&
    passed == |Filter(s, PassesFn(i, matches))| &&
    Examples(Shown(s, i, k, matches)) == Success(examples)
  }

  /** One record through one test: a pass counts, a failure is kept while
      fewer than k are, and keeping it raises exactly when its example does. */
  lemma TallyStep(s: seq<Dict>, r: Dict, i: nat, k: int, matches: (string, string) -> bool,
                  total: nat, passed: nat, ex: seq<Dict>)
    requires i < |TestNames| && Tallied(s, i, k, matches, total, passed, ex)
    ensures Passes(i, r, matches) ==> Tallied(s + [r], i, k, matches, total + 1, passed + 1, ex)
    ensures !Passes(i, r, matches) && |ex| >= k ==> Tallied(s + [r], i, k, matches, total + 1, passed, ex)
    ensures !Passes(i, r, matches) && |ex| < k && ExampleOf(r).Failure? ==>
      Examples(Shown(s + [r], i, k, matches)).Failure?
    ensures !Passes(i, r, matches) && |ex| < k && ExampleOf(r).Success? ==>
      Tallied(s + [r], i, k, matches, total + 1, passed, ex + [ExampleOf(r).value])
  {
    StepFacts(s, r, i, k, matches);
    ExamplesSnoc(Shown(s, i, k, matches), r);
  }

  /** The inner loop of run_checks: one record through every test. It stops
      with `crashed` when building an example raises. */
  method TallyRecord(s: seq<Dict>, r: Dict, k: int, matches: (string, string) -> bool,
                     totals: seq<nat>, passes: seq<nat>, examples: seq<seq<Dict>>)
    returns (crashed: bool, totals': seq<nat>, passes': seq<nat>, examples': seq<seq<Dict>>)
    requires |totals| == |passes| == |examples| == |TestNames|
    requires forall i :: 0 <= i < |TestNames| ==> Tallied(s, i, k, matches, totals[i], passes[i], examples[i])
    ensures |totals'| == |passes'| == |examples'| == |TestNames|
    ensures crashed ==> exists i :: 0 <= i < |TestNames| && Examples(Shown(s + [r], i, k, matches)).Failure?
    ensures !crashed ==> forall i :: 0 <= i < |TestNames| ==>
      Tallied(s + [r], i, k, matches, totals'[i], passes'[i], examples'[i])
  {
    totals', passes', examples' := totals, passes, examples;
    for ti := 0 to |TestNames|
      invariant |totals'| == |passes'| == |examples'| == |TestNames|
      invariant forall i :: 0 <= i < ti ==> Tallied(s + [r], i, k, matches, totals'[i], passes'[i], examples'[i])
      invariant forall i :: ti <= i < |TestNames| ==> Tallied(s, i, k, matches, totals'[i], passes'[i], examples'[i])
    {
      var total, passed, kept := totals'[ti], passes'[ti], examples'[ti];
      TallyStep(s, r, ti, k, matches, total, passed, kept);
      total := total + 1;
      var ok := RunTest(ti, r, matches) == Success(true);
      if ok {
        passed := passed + 1;
      } else if |kept| < k {
        var e := ExampleOf(r);
        if e.Failure? {
          return true, totals'[ti := total], passes', examples';
        }
        kept := kept + [e.value];
      }
      assert Tallied(s + [r], ti, k, matches, total, passed, kept);
      totals', passes', examples' := totals'[ti := total], passes'[ti := passed], examples'[ti := kept];
    }
    crashed := false;
  }

  /** run_checks: every record goes through every test, in order. Failing
      records add their example while fewer than k are kept; building an
      example from a record whose text is neither falsy, a string nor a list
      raises out of run_checks. */
  method RunChecks(records: seq<Dict>, k: int, matches: (string, string) -> bool) returns (report: Result<Report>)
    ensures report.Success? <==>
      forall i :: 0 <= i < |TestNames| ==> Examples(Shown(records, i, k, matches)).Success?
    ensures report.Success? ==>
      var rep := report.value;
      rep.totals.Keys == rep.passes.Keys == rep.passRates.Keys == rep.examplesFailed.Keys == set n | n in TestNames
    ensures report.Success? ==> forall i :: 0 <= i < |TestNames| ==>
      var rep := report.value;
      var name := TestNames[i];
      rep.totals[name] == |records| &&
      rep.passes[name] == |Filter(records, PassesFn(i, matches))| &&
      rep.passRates[name] == PassRate(|records|, rep.passes[name]) &&
      Examples(Shown(records, i, k, matches)) == Success(rep.examplesFailed[name])
  {
    var totals: seq<nat> := [0, 0, 0, 0, 0, 0, 0];
    var passes: seq<nat> := [0, 0, 0, 0, 0, 0, 0];
    var examples: seq<seq<Dict>> := [[], [], [], [], [], [], []];
    assert records[..0] == [];
    for ri := 0 to |records|
      invariant |totals| == |passes| == |examples| == |TestNames|
      invariant forall i :: 0 <= i < |TestNames| ==>
        Tallied(records[..ri], i, k, matches, totals[i], passes[i], examples[i])
    {
      assert records[..ri + 1] == records[..ri] + [records[ri]];
      var crashed;
      crashed, totals, passes, examples := TallyRecord(records[..ri], records[ri], k, matches, totals, passes, examples);
      if crashed {
        var i :| 0 <= i < |TestNames| && Examples(Shown(records[..ri + 1], i, k, matches)).Failure?;
        ShownFails(records, ri, i, k, matches);
        return Failure("TypeError");
      }
    }
    assert records[..|records|] == records;
    forall i | 0 <= i < |TestNames| ensures Examples(Shown(records, i, k, matches)).Success? {
      assert Tallied(records, i, k, matches, totals[i], passes[i], examples[i]);
    }
    report := Success(MakeReport(totals, passes, examples));
  }

  /** A dictionary keyed by test name, with vals in test order. */
  function ByName<T>(vals: seq<T>): (m: map<string, T>)
    requires |vals| == |TestNames|
    ensures m.Keys == set n | n in TestNames
    ensures forall i :: 0 <= i < |TestNames| ==> m[TestNames[i]] == vals[i]
  {
    TestNamesDistinct();
    map i | 0 <= i < |TestNames| :: TestNames[i] := vals[i]
  }

  function PassRate(total: nat, passed: nat): Option<real>
  {
    if total != 0 then Some(passed as real / total as real) else None
  }

  /** The report dictionaries, keyed by test name. */
  function MakeReport(totals: seq<nat>, passes: seq<nat>, examples: seq<seq<Dict>>): (rep: Report)
    requires |totals| == |passes| == |examples| == |TestNames|
    ensures rep.totals.Keys == rep.passes.Keys == rep.passRates.Keys == rep.examplesFailed.Keys ==
      set n | n in TestNames
    ensures forall i :: 0 <= i < |TestNames| ==>
      rep.totals[TestNames[i]] == totals[i] && rep.passes[TestNames[i]] == passes[i] &&
      rep.passRates[TestNames[i]] == PassRate(totals[i], passes[i]) &&
      rep.examplesFailed[TestNames[i]] == examples[i]
  {
    Report(ByName(totals), ByName(passes),
      ByName(seq(|TestNames|, i requires 0 <= i < |TestNames| => PassRate(totals[i], passes[i]))),
      ByName(examples))
  }

  /** A record whose example fails while it is among the first k failures of a
      prefix is also among the first k failures of the whole list. */
  lemma ShownFails(records: seq<Dict>, ri: nat, i: nat, k: int, matches: (string, string) -> bool)
    requires ri < |records| && i < |TestNames|
    requires Examples(Shown(records[..ri + 1], i, k, matches)).Failure?
    ensures exists i' :: 0 <= i' < |TestNames| && Examples(Shown(records, i', k, matches)).Failure?
  {
    FilterPrefix(records, ri + 1, FailsFn(i, matches));
    TakePrefix(Filter(records[..ri + 1], FailsFn(i, matches)), Filter(records, FailsFn(i, matches)), k);
    var a := Shown(records[..ri + 1], i, k, matches);
    var b := Shown(records, i, k, matches);
    ExamplesFailure(a);
    ExamplesFailure(b);
    var j :| 0 <= j < |a| && ExampleOf(a[j]).Failure?;
    assert b[j] == a[j];
  }

  /** Every record is counted once, as a pass or as a failure; a check that
      raises counts as a failure. */
  lemma PassesAndFailures(records: seq<Dict>, i: nat, matches: (string, string) -> bool)
    requires i < |TestNames|
    ensures |Filter(records, PassesFn(i, matches))| + |Filter(records, FailsFn(i, matches))| == |records|
    ensures forall j :: 0 <= j < |records| && RunTest(i, records[j], matches).Failure? ==>
      records[j] in Filter(records, FailsFn(i, matches))
  {
    FilterPartition(records, PassesFn(i, matches), FailsFn(i, matches));
    forall j | 0 <= j < |records| && RunTest(i, records[j], matches).Failure?
      ensures records[j] in Filter(records, FailsFn(i, matches))
    {
      FilterMembership(records, FailsFn(i, matches), records[j]);
    }
  }

  /** The j-th example is the example of the j-th record. */
  lemma {:induction false} ExamplesAt(rs: seq<Dict>, j: int)
    requires Examples(rs).Success? && 0 <= j < |rs|
    ensures ExampleOf(rs[j]).Success? && Examples(rs).value[j] == ExampleOf(rs[j]).value
  {
    var pre := rs[..|rs| - 1];
    var last := rs[|rs| - 1];
    assert Examples(pre).Success? && ExampleOf(last).Success?;
    var ex := Examples(pre).value;
    assert Examples(rs).value == ex + [ExampleOf(last).value];
    if j < |pre| {
      ExamplesAt(pre, j);
      assert pre[j] == rs[j];
    }
  }

  /** A test keeps at most k examples, each of a failing record, and every
      text snippet holds at most 160 characters (or list items). */
  lemma ExamplesBounded(records: seq<Dict>, i: nat, k: int, matches: (string, string) -> bool)
    requires i < |TestNames|
    requires Examples(Shown(records, i, k, matches)).Success?
    ensures var ex := Examples(Shown(records, i, k, matches)).value;
      |ex| <= (if k <= 0 then 0 else k) &&
      forall j :: 0 <= j < |ex| ==>
        var snippet := Get(ex[j], "text_snippet");
        (snippet.VStr? && |snippet.s| <= 160) || (snippet.VList? && |snippet.items| <= 160)
    ensures forall j :: 0 <= j < |Shown(records, i, k, matches)| ==> !Passes(i, Shown(records, i, k, matches)[j], matches)
  {
    var sh := Shown(records, i, k, matches);
    var ex := Examples(sh).value;
    forall j | 0 <= j < |ex|
      ensures var snippet := Get(ex[j], "text_snippet");
        (snippet.VStr? && |snippet.s| <= 160) || (snippet.VList? && |snippet.items| <= 160)
    {
      ExamplesAt(sh, j);
    }
    var failing := Filter(records, FailsFn(i, matches));
    forall j | 0 <= j < |sh| ensures !Passes(i, sh[j], matches) {
      assert sh[j] == failing[j];
      assert FailsFn(i, matches)(failing[j]);
    }
  }

  /** pass_rates[name] is None exactly when the test saw no record, and is a
      fraction in [0, 1] otherwise. */
  lemma PassRateRange(total: nat, passed: nat)
    requires passed <= total
    ensures PassRate(total, passed) == None <==> total == 0
    ensures PassRate(total, passed).Some? ==> 0.0 <= PassRate(total, passed).value <= 1.0
  {
    if total != 0 {
      var q := passed as real / total as real;
      assert q * total as real == passed as real;
    }
  }

  /** On a normalised record, whose face-down tag is a bool or None, the lying
      check fails exactly when the position mentions lying and the tag is False. */
  lemma LyingOnNormalised(r: Dict)
    requires Get(r, "tag_lying_face_down").VBool? || Get(r, "tag_lying_face_down") == VNone
    requires Get(r, "tag_person_position").VStr? || Get(r, "tag_person_position") == VNone
    ensures CheckLying(r) == Success(false) <==>
      Get(r, "tag_person_position").VStr? && Contains(Get(r, "tag_person_position").s, "lying") &&
      Get(r, "tag_lying_face_down") == VBool(false)
  {
    var pos := Get(r, "tag_person_position");
    if pos.VStr? && pos.s == "" {
      assert !Contains("", "lying");
    }
  }

  /** A record whose counts were clipped to [0, 400] and [0, 25] passes both
      bound checks. */
  lemma ClippedPassesBounds(out: Dict, matches: (string, string) -> bool)
    requires var v := Get(out, "tag_size_feet"); v == VNone || (v.VFloat? && 0.0 <= v.f <= SizeBound)
    requires var v := Get(out, "tag_num_people"); v == VNone || (v.VFloat? && 0.0 <= v.f <= 25.0)
    ensures Passes(5, out, matches) && Passes(6, out, matches)
  {
  }

  /** With size_max = 400 a normalised record passes both bound checks. */
  lemma NormalizedPassesBounds(rec: Dict, p: Parsers)
    requires Normalized(rec, SizeBound, p).Success?
    ensures Passes(5, Normalized(rec, SizeBound, p).value, p.matches)
    ensures Passes(6, Normalized(rec, SizeBound, p).value, p.matches)
  {
    NormalizedBounds(rec, SizeBound, p);
    ClippedPassesBounds(Normalized(rec, SizeBound, p).value, p.matches);
  }

  /** A flag that is the pattern's verdict on the record's text passes the
      flag check. */
  lemma AgreeingFlagPasses(out: Dict, flag: string, pattern: string, t: string,
                           matches: (string, string) -> bool)
    requires Get(out, "text") == (if t != "" then VStr(t) else VNone)
    requires Get(out, flag) == VBool(t != "" && matches(pattern, t))
    ensures CheckFlag(out, flag, pattern, matches) == Success(true)
  {
  }

  /** A normalised record's flag for keyword i is the pattern's verdict on its text. */
  lemma NormalizedFlagAgrees(rec: Dict, p: Parsers, i: int, flag: string, pattern: string)
    requires Normalized(rec, SizeBound, p).Success?
    requires 0 <= i < |Keywords| && flag == FeatKeys[i + 1] && pattern == Keywords[i]
    ensures CheckFlag(Normalized(rec, SizeBound, p).value, flag, pattern, p.matches) == Success(true)
  {
    var out := Normalized(rec, SizeBound, p).value;
    var t := TextOf(rec);
    NormalizedText(rec, SizeBound, p);
    NormalizedFlags(rec, SizeBound, p, i);
    AgreeingFlagPasses(out, flag, pattern, t, p.matches);
  }

  /** The keyword flags the evaluation re-checks, by position. */
  lemma CheckedFlagNames()
    ensures FeatKeys[12] == "kw_passed_out" && Keywords[11] == "passed_out"
    ensures FeatKeys[3] == "kw_blocking" && Keywords[2] == "blocking"
    ensures FeatKeys[10] == "kw_private_property" && Keywords[9] == "private_property"
  {
  }

  /** A record whose three flags agree with its text passes the three keyword checks. */
  lemma AgreeingFlagsPass(out: Dict, matches: (string, string) -> bool)
    requires CheckFlag(out, "kw_passed_out", "passed_out", matches) == Success(true)
    requires CheckFlag(out, "kw_blocking", "blocking", matches) == Success(true)
    requires CheckFlag(out, "kw_private_property", "private_property", matches) == Success(true)
    requires Get(out, "derived_is_private_property") == Get(out, "kw_private_property")
    ensures Passes(0, out, matches) && Passes(1, out, matches) && Passes(2, out, matches)
  {
  }

  /** The evaluation patterns are the keyword patterns of the same name, so a
      normalised record passes the three keyword checks. */
  lemma NormalizedPassesKeywordChecks(rec: Dict, p: Parsers)
    requires Normalized(rec, SizeBound, p).Success?
    ensures Passes(0, Normalized(rec, SizeBound, p).value, p.matches)
    ensures Passes(1, Normalized(rec, SizeBound, p).value, p.matches)
    ensures Passes(2, Normalized(rec, SizeBound, p).value, p.matches)
  {
    CheckedFlagNames();
    NormalizedFlagAgrees(rec, p, 11, "kw_passed_out", "passed_out");
    NormalizedFlagAgrees(rec, p, 2, "kw_blocking", "blocking");
    NormalizedFlagAgrees(rec, p, 9, "kw_private_property", "private_property");
    NormalizedDerived(rec, SizeBound, p);
    AgreeingFlagsPass(Normalized(rec, SizeBound, p).value, p.matches);
  }
}
