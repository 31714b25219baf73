/** The annotation queue of scripts/labeler_app.py: the filter pipeline
    `subset`, the status map shown in the sidebar and the four sort modes. */
module LabelerQueue {
  import opened PyData
  import opened Strings
  import opened Ordering
  import opened LabelerUtils
  import opened LabelerDisplay

  const StatusFilterOptions: seq<string> := ["unlabeled", "needs_review", "labeled", "all"]

  /** The keyword arguments of subset, and MAX_ANNOTATORS from the configuration. */
  datatype Filters = Filters(
    hasPhoto: Option<bool>,
    kwFilters: seq<string>,
    tagFilters: seq<string>,
    statusFilter: string,
    labelsByRequest: map<string, seq<Label>>,
    annotatorUid: string,
    searchText: string,
    onlyMine: bool,
    requireRichContext: bool,
    maxAnnotators: int)

  /** labels_by_request.get(rid, []) */
  function LabelsFor(m: map<string, seq<Label>>, rid: string): seq<Label>
  {
    if rid in m then m[rid] else []
  }

  /** str(r.get("request_id")) */
  function RowId(r: Dict): string
  {
    Str(Get(r, "request_id"))
  }

  /** pass_kw: every selected keyword flag is truthy. */
  predicate PassKw(r: Dict, kwFilters: seq<string>)
  {
    forall i :: 0 <= i < |kwFilters| ==> Truthy(Get(r, "kw_" + kwFilters[i]))
  }

  /** pass_tag: the two known tags must be exactly True; other names are ignored. */
  predicate PassTag(r: Dict, tagFilters: seq<string>)
  {
    forall i :: 0 <= i < |tagFilters| ==>
      (tagFilters[i] == "lying_face_down" ==> Get(r, "tag_lying_face_down") == VBool(true))
      && (tagFilters[i] == "tents_present" ==> Get(r, "tag_tents_present") == VBool(true))
  }

  /** pass_tag as written: a loop that stops at the first failing tag. */
  method CheckTags(r: Dict, tagFilters: seq<string>) returns (ok: bool)
    ensures ok <==> PassTag(r, tagFilters)
  {
    for i := 0 to |tagFilters|
      invariant PassTag(r, tagFilters[..i])
    {
      var t := tagFilters[i];
      if t == "lying_face_down" && Get(r, "tag_lying_face_down") != VBool(true) {
        return false;
      }
      if t == "tents_present" && Get(r, "tag_tents_present") != VBool(true) {
        return false;
      }
      assert tagFilters[..i + 1] == tagFilters[..i] + [t];
    }
    assert tagFilters[..|tagFilters|] == tagFilters;
    return true;
  }

  /** search_text.strip().lower() */
  function SearchKey(searchText: string): string
  {
    Lower(Strip(searchText))
  }

  /** str(v or "") */
  function TextOf(v: Value): string
  {
    Str(Or(v, VStr("")))
  }

  /** The keys starting with "kw_" whose value is truthy, in key order. */
  function KeywordKeys(r: Dict): seq<string>
  {
    Filter(Keys(r), k => StartsWith(k, "kw_") && Truthy(Get(r, k)))
  }

  /** str(l.get("notes") or "") for each label. */
  function LabelNotes(labels: seq<Label>): (r: seq<string>)
    ensures |r| == |labels|
  {
    seq(|labels|, i requires 0 <= i < |labels| => if Present(labels[i].notes) then labels[i].notes.value else "")
  }

  /** The haystack parts: id, text, notes, subtype, truthy keyword names,
      created_at and the labels' notes. */
  function HaystackParts(r: Dict, labels: seq<Label>): seq<string>
  {
    [RowId(r), TextOf(Get(r, "text")), TextOf(Get(r, "status_notes")), TextOf(Get(r, "service_subtype"))]
    + KeywordKeys(r) + [TextOf(Get(r, "created_at")), Join(" ", LabelNotes(labels))]
  }

  function Haystack(r: Dict, labels: seq<Label>): string
  {
    Lower(Join(" ", HaystackParts(r, labels)))
  }

  predicate PassStatus(statusFilter: string, labels: seq<Label>)
  {
    statusFilter == "all" || RequestStatus(labels) == statusFilter
  }

  predicate PassSearch(searchText: string, r: Dict, labels: seq<Label>)
  {
    SearchKey(searchText) == "" || Contains(Haystack(r, labels), SearchKey(searchText))
  }

  predicate HasContext(r: Dict)
  {
    Truthy(Or(Or(Get(r, "has_photo"), Get(r, "status_notes")), Get(r, "resolution_notes")))
  }

  /** Whether subset keeps the row: every check of the loop body passes. */
  predicate Keep(f: Filters, r: Dict)
  {
    var labels := LabelsFor(f.labelsByRequest, RowId(r));
    (f.hasPhoto.None? || Truthy(Get(r, "has_photo")) == f.hasPhoto.value)
    && PassKw(r, f.kwFilters)
    && PassTag(r, f.tagFilters)
    && PassStatus(f.statusFilter, labels)
    && PassSearch(f.searchText, r, labels)
    && (!f.requireRichContext || HasContext(r))
    && (!f.onlyMine || f.annotatorUid in Annotators(labels))
    && CanAnnotatorLabel(labels, f.annotatorUid, f.maxAnnotators)
  }

  function KeepFn(f: Filters): Dict -> bool
  {
    r => Keep(f, r)
  }

  /** The rows subset returns. */
  function SubsetRows(rows: seq<Dict>, f: Filters): seq<Dict>
  {
    Filter(rows, KeepFn(f))
  }

  /** The checks of subset's loop body for one row, in the source's order;
      each `continue` of the loop is a `return false` here. */
  method KeepRow(f: Filters, r: Dict) returns (keep: bool)
    ensures keep == Keep(f, r)
  {
    if f.hasPhoto.Some? && Truthy(Get(r, "has_photo")) != f.hasPhoto.value {
      return false;
    }
    if !PassKw(r, f.kwFilters) {
      return false;
    }
    var tagsOk := CheckTags(r, f.tagFilters);
    if !tagsOk {
      return false;
    }
    var rid := RowId(r);
    var labels := LabelsFor(f.labelsByRequest, rid);
    var reqStatus := RequestStatus(labels);
    if f.statusFilter != "all" && reqStatus != f.statusFilter {
      if f.statusFilter == "unlabeled" && reqStatus == "unlabeled" {
        // never taken: reqStatus differs from the filter here
      } else {
        assert !PassStatus(f.statusFilter, labels);
        return false;
      }
    }
    assert PassStatus(f.statusFilter, labels);
    var key := SearchKey(f.searchText);
    if key != "" {
      var haystack := Lower(Join(" ", HaystackParts(r, labels)));
      assert haystack == Haystack(r, labels);
      if !Contains(haystack, key) {
        assert !PassSearch(f.searchText, r, labels);
        return false;
      }
    }
    assert PassSearch(f.searchText, r, labels);
    if f.requireRichContext {
      var hasContext := Truthy(Or(Or(Get(r, "has_photo"), Get(r, "status_notes")), Get(r, "resolution_notes")));
      if !hasContext {
        return false;
      }
    }
    if f.onlyMine {
      var mine := UniqueAnnotators(labels);
      if f.annotatorUid !in mine {
        return false;
      }
    }
    return CanAnnotatorLabel(labels, f.annotatorUid, f.maxAnnotators);
  }

  /** subset: the rows that pass every filter, in their input order. */
  method Subset(rows: seq<Dict>, f: Filters) returns (out: seq<Dict>)
    ensures out == SubsetRows(rows, f)
  {
    out := [];
    for i := 0 to |rows|
      invariant out == Filter(rows[..i], KeepFn(f))
    {
      var r := rows[i];
      FilterStep(rows, i, KeepFn(f));
      var keep := KeepRow(f, r);
      assert KeepFn(f)(r) == keep;
      if keep {
        out := out + [r];
      }
    }
    assert rows[..|rows|] == rows;
  }

  /** subset keeps rows in their order and drops only rows that fail a filter. */
  lemma SubsetOrder(rows: seq<Dict>, f: Filters)
    ensures IsSubseq(SubsetRows(rows, f), rows)
    ensures forall r :: r in SubsetRows(rows, f) <==> r in rows && Keep(f, r)
  {
    FilterIsSubseq(rows, KeepFn(f));
    forall r ensures r in SubsetRows(rows, f) <==> r in rows && Keep(f, r) {
      FilterMembership(rows, KeepFn(f), r);
    }
  }

  /** Every returned row is one the annotator may label: the annotator has
      already labelled it or its contributors are below the cap; with
      only_mine, the annotator is already a contributor. */
  lemma SubsetCap(rows: seq<Dict>, f: Filters)
    ensures forall i :: 0 <= i < |SubsetRows(rows, f)| ==>
      var labels := LabelsFor(f.labelsByRequest, RowId(SubsetRows(rows, f)[i]));
      (f.annotatorUid in Annotators(labels) || |Annotators(labels)| < f.maxAnnotators)
      && (f.onlyMine ==> f.annotatorUid in Annotators(labels))
  {
    var out := SubsetRows(rows, f);
    forall i | 0 <= i < |out|
      ensures var labels := LabelsFor(f.labelsByRequest, RowId(out[i]));
        (f.annotatorUid in Annotators(labels) || |Annotators(labels)| < f.maxAnnotators)
        && (f.onlyMine ==> f.annotatorUid in Annotators(labels))
    {
      assert KeepFn(f)(out[i]);
      CanAnnotatorLabelSpec(LabelsFor(f.labelsByRequest, RowId(out[i])), f.annotatorUid, f.maxAnnotators);
    }
  }

  /** The status filter keeps a row iff it is "all" or equals the row's
      status; so a conflicted request shows up only under "all". */
  lemma SubsetStatus(rows: seq<Dict>, f: Filters)
    ensures forall i :: 0 <= i < |SubsetRows(rows, f)| ==>
      PassStatus(f.statusFilter, LabelsFor(f.labelsByRequest, RowId(SubsetRows(rows, f)[i])))
    ensures f.statusFilter in StatusFilterOptions && f.statusFilter != "all" ==>
      forall i :: 0 <= i < |SubsetRows(rows, f)| ==>
        RequestStatus(LabelsFor(f.labelsByRequest, RowId(SubsetRows(rows, f)[i]))) != "conflict"
  {
    var out := SubsetRows(rows, f);
    forall i | 0 <= i < |out|
      ensures PassStatus(f.statusFilter, LabelsFor(f.labelsByRequest, RowId(out[i])))
    {
      assert KeepFn(f)(out[i]);
    }
    if f.statusFilter in StatusFilterOptions && f.statusFilter != "all" {
      assert |"conflict"| == 8;
      assert f.statusFilter != "conflict";
    }
  }

  /** The status filter alone decides nothing else: with "all" no row is
      dropped for its status. */
  lemma StatusAllKeepsEveryStatus(f: Filters, r: Dict)
    requires f.statusFilter == "all"
    ensures PassStatus(f.statusFilter, LabelsFor(f.labelsByRequest, RowId(r)))
  {
  }

  lemma {:induction false} JoinStartsWithFirst(sep: string, parts: seq<string>)
    requires parts != []
    ensures StartsWith(Join(sep, parts), parts[0])
  {
    if |parts| > 1 {
      assert Join(sep, parts) == parts[0] + (sep + Join(sep, parts[1..]));
    }
  }

  /** Searching for a request's own id, in any case and with surrounding
      whitespace, finds it. */
  lemma SearchFindsOwnRow(searchText: string, r: Dict, labels: seq<Label>)
    requires SearchKey(searchText) == Lower(RowId(r))
    ensures PassSearch(searchText, r, labels)
  {
    var parts := HaystackParts(r, labels);
    var h := Join(" ", parts);
    JoinStartsWithFirst(" ", parts);
    var rid := RowId(r);
    assert h[..|rid|] == rid;
    LowerSlice(h, 0, |rid|);
    assert Lower(h)[..|rid|] == Lower(rid);
    assert InfixAt(Lower(h), SearchKey(searchText), 0);
  }

  // ---------------------------------------------------------------- status map

  /** The status map of the sidebar: each row's id to its request status. */
  method StatusByRequest(rowsAll: seq<Dict>, labelsByRequest: map<string, seq<Label>>) returns (m: map<string, string>)
    ensures m.Keys == set r | r in rowsAll :: RowId(r)
    ensures forall rid :: rid in m ==> m[rid] == RequestStatus(LabelsFor(labelsByRequest, rid))
  {
    m := map[];
    for i := 0 to |rowsAll|
      invariant m.Keys == set r | r in rowsAll[..i] :: RowId(r)
      invariant forall rid :: rid in m ==> m[rid] == RequestStatus(LabelsFor(labelsByRequest, rid))
    {
      var rid := RowId(rowsAll[i]);
      m := m[rid := RequestStatus(LabelsFor(labelsByRequest, rid))];
      assert rowsAll[..i + 1] == rowsAll[..i] + [rowsAll[i]];
    }
    assert rowsAll[..|rowsAll|] == rowsAll;
  }

  // ---------------------------------------------------------------- sort modes

  /** status_priority.get(status, 4) */
  function StatusScore(status: string): int
  {
    if status == "needs_review" then 0
    else if status == "unlabeled" then 1
    else if status == "labeled" then 2
    else 4
  }

  /** status_by_request.get(rid, "labeled") */
  function StatusOf(statusByRequest: map<string, string>, r: Dict): string
  {
    var rid := RowId(r);
    if rid in statusByRequest then statusByRequest[rid] else "labeled"
  }

  function PhotoScore(r: Dict): int
  {
    if Truthy(Get(r, "has_photo")) then 0 else 1
  }

  /** The context score of a row whose score does not raise. */
  function ContextScore(r: Dict): real
  {
    match RichContextScore(r)
    case Success(v) => v
    case Failure(_) => 0.0
  }

  /** `parse(...) or datetime.max`: None sorts after every time. */
  predicate LatestLastLe(a: Option<Stamp>, b: Option<Stamp>)
  {
    b.None? || (a.Some? && a.value <= b.value)
  }

  /** The parts of the recommended key that the environment supplies:
      parse_created_at and user_random_value, both outside this model. */
  datatype KeyEnv = KeyEnv(
    statusByRequest: map<string, string>,
    annotatorUid: string,
    parseCreated: Value -> Option<Stamp>,
    userRandom: (string, string) -> real)

  /** recommended_key(r): (status score, photo score, -context score,
      created_at or max, user random). */
  datatype RecKey = RecKey(status: int, photo: int, context: real, created: Option<Stamp>, random: real)

  function KeyOf(env: KeyEnv, r: Dict): RecKey
  {
    RecKey(StatusScore(StatusOf(env.statusByRequest, r)), PhotoScore(r), -ContextScore(r),
      env.parseCreated(Get(r, "created_at")), env.userRandom(RowId(r), env.annotatorUid))
  }

  /** x <= y as Python compares the key tuples, field by field. */
  predicate KeyLe(x: RecKey, y: RecKey)
  {
    x.status < y.status || (x.status == y.status && (x.photo < y.photo || (x.photo == y.photo
      && (x.context < y.context || (x.context == y.context
      && ((LatestLastLe(x.created, y.created) && x.created != y.created)
          || (x.created == y.created && x.random <= y.random)))))))
  }

  lemma KeyLeTotal(x: RecKey, y: RecKey)
    ensures KeyLe(x, y) || KeyLe(y, x)
  {
  }

  lemma KeyLeTrans(x: RecKey, y: RecKey, z: RecKey)
    requires KeyLe(x, y) && KeyLe(y, z)
    ensures KeyLe(x, z)
  {
  }

  predicate RecommendedLe(env: KeyEnv, a: Dict, b: Dict)
  {
    KeyLe(KeyOf(env, a), KeyOf(env, b))
  }

  function RecommendedLeFn(env: KeyEnv): (Dict, Dict) -> bool
  {
    (a, b) => RecommendedLe(env, a, b)
  }

  /** The recommended key orders rows totally and transitively, so the sort is well defined. */
  lemma RecommendedLePreorder(env: KeyEnv)
    ensures TotalPreorder(RecommendedLeFn(env))
  {
    var le := RecommendedLeFn(env);
    forall a, b ensures le(a, b) || le(b, a) {
      KeyLeTotal(KeyOf(env, a), KeyOf(env, b));
    }
    forall a, b, c | le(a, b) && le(b, c) ensures le(a, c) {
      KeyLeTrans(KeyOf(env, a), KeyOf(env, b), KeyOf(env, c));
    }
  }

  /** sort mode "Oldest first": created_at ascending, unparseable last. */
  function OldestFirstLeFn(parseCreated: Value -> Option<Stamp>): (Dict, Dict) -> bool
  {
    (a, b) => LatestLastLe(parseCreated(Get(a, "created_at")), parseCreated(Get(b, "created_at")))
  }

  /** `parse(...) or datetime.min` */
  function StampOrMin(t: Option<Stamp>): Stamp
  {
    if t.Some? then t.value else 0
  }

  /** sort mode "Newest first": the sort runs with reverse=True, which keeps
      equal keys in input order, so it is a stable sort by descending time. */
  function NewestFirstLeFn(parseCreated: Value -> Option<Stamp>): (Dict, Dict) -> bool
  {
    (a, b) => StampOrMin(parseCreated(Get(a, "created_at"))) >= StampOrMin(parseCreated(Get(b, "created_at")))
  }

  /** str(r.get("request_id") or "") */
  function IdKey(r: Dict): string
  {
    TextOf(Get(r, "request_id"))
  }

  function RequestIdLeFn(): (Dict, Dict) -> bool
  {
    (a, b) => LexLe(IdKey(a), IdKey(b))
  }

  /** The queue after the sort the sidebar selects; the recommended key calls
      rich_context_score on every row, so a row whose score raises makes the
      whole sort raise; an unknown mode leaves the order alone. */
  function SortQueue(mode: string, rows: seq<Dict>, env: KeyEnv): (r: Result<seq<Dict>>)
    ensures r.Success? ==> multiset(r.value) == multiset(rows) && |r.value| == |rows|
    ensures r.Failure? <==> mode == "Recommended order" && exists i :: 0 <= i < |rows| && RichContextScore(rows[i]).Failure?
  {
    if mode == "Recommended order" then
      if exists i | 0 <= i < |rows| :: RichContextScore(rows[i]).Failure? then Failure("TypeError")
      else Success(SortBy(rows, RecommendedLeFn(env)))
    else if mode == "Oldest first" then Success(SortBy(rows, OldestFirstLeFn(env.parseCreated)))
    else if mode == "Newest first" then Success(SortBy(rows, NewestFirstLeFn(env.parseCreated)))
    else if mode == "Request ID" then Success(SortBy(rows, RequestIdLeFn()))
    else Success(rows)
  }

  /** In recommended order, rows needing review come first, then unlabeled,
      then labeled, then the rest; within one status, rows with a photo come
      first; rows with equal keys keep their relative order. */
  lemma RecommendedOrder(rows: seq<Dict>, env: KeyEnv)
    requires SortQueue("Recommended order", rows, env).Success?
    ensures var s := SortQueue("Recommended order", rows, env).value;
      forall i, j :: 0 <= i < j < |s| ==>
        var si := StatusScore(StatusOf(env.statusByRequest, s[i]));
        var sj := StatusScore(StatusOf(env.statusByRequest, s[j]));
        si <= sj && (si == sj ==> PhotoScore(s[i]) <= PhotoScore(s[j]))
    ensures forall c :: Class(SortQueue("Recommended order", rows, env).value, RecommendedLeFn(env), c) == Class(rows, RecommendedLeFn(env), c)
  {
    RecommendedLePreorder(env);
    SortBySorted(rows, RecommendedLeFn(env));
    var s := SortBy(rows, RecommendedLeFn(env));
    forall i, j | 0 <= i < j < |s|
      ensures StatusScore(StatusOf(env.statusByRequest, s[i])) <= StatusScore(StatusOf(env.statusByRequest, s[j]))
    {
      assert RecommendedLeFn(env)(s[i], s[j]);
    }
    forall c ensures Class(s, RecommendedLeFn(env), c) == Class(rows, RecommendedLeFn(env), c) {
      SortByStable(rows, RecommendedLeFn(env), c);
    }
  }

  lemma TimePreorders(parseCreated: Value -> Option<Stamp>)
    ensures TotalPreorder(OldestFirstLeFn(parseCreated))
    ensures TotalPreorder(NewestFirstLeFn(parseCreated))
  {
    var le := OldestFirstLeFn(parseCreated);
    forall a, b ensures le(a, b) || le(b, a) {
      var ta := parseCreated(Get(a, "created_at"));
      var tb := parseCreated(Get(b, "created_at"));
      assert LatestLastLe(ta, tb) || LatestLastLe(tb, ta);
    }
    forall a, b, c | le(a, b) && le(b, c) ensures le(a, c) {
      var ta := parseCreated(Get(a, "created_at"));
      var tb := parseCreated(Get(b, "created_at"));
      var tc := parseCreated(Get(c, "created_at"));
      assert LatestLastLe(ta, tb) && LatestLastLe(tb, tc);
    }
  }

  /** Oldest first orders by ascending time, unparseable times last. */
  lemma OldestFirstOrder(rows: seq<Dict>, env: KeyEnv)
    ensures var s := SortQueue("Oldest first", rows, env).value;
      forall i, j :: 0 <= i < j < |s| ==>
        LatestLastLe(env.parseCreated(Get(s[i], "created_at")), env.parseCreated(Get(s[j], "created_at")))
  {
    assert |"Oldest first"| != |"Recommended order"|;
    TimePreorders(env.parseCreated);
    SortBySorted(rows, OldestFirstLeFn(env.parseCreated));
  }

  /** Newest first orders by descending time, unparseable times last. */
  lemma NewestFirstOrder(rows: seq<Dict>, env: KeyEnv)
    ensures var s := SortQueue("Newest first", rows, env).value;
      forall i, j :: 0 <= i < j < |s| ==>
        StampOrMin(env.parseCreated(Get(s[i], "created_at"))) >= StampOrMin(env.parseCreated(Get(s[j], "created_at")))
  {
    assert |"Newest first"| != |"Recommended order"|;
    assert "Newest first" != "Oldest first";
    TimePreorders(env.parseCreated);
    SortBySorted(rows, NewestFirstLeFn(env.parseCreated));
  }

  lemma IdPreorder()
    ensures TotalPreorder(RequestIdLeFn())
  {
    var le := RequestIdLeFn();
    forall a, b ensures le(a, b) || le(b, a) {
      LexLeTotal(IdKey(a), IdKey(b));
    }
    forall a, b, c | le(a, b) && le(b, c) ensures le(a, c) {
      LexLeTrans(IdKey(a), IdKey(b), IdKey(c));
    }
  }

  /** Request id order is string order. */
  lemma RequestIdOrder(rows: seq<Dict>, env: KeyEnv)
    ensures var s := SortQueue("Request ID", rows, env).value;
      forall i, j :: 0 <= i < j < |s| ==> LexLe(IdKey(s[i]), IdKey(s[j]))
  {
    assert |"Request ID"| != |"Recommended order"| && |"Request ID"| != |"Oldest first"| && |"Request ID"| != |"Newest first"|;
    IdPreorder();
    SortBySorted(rows, RequestIdLeFn());
  }
}
