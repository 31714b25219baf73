/** The label export: paging through the labels table, flattening each label
    row to the CSV's fixed columns, and the CSV records written from them.
    The table is a sequence of rows; the server's timestamp filter and the
    JSON decoder are parameters. */
module ExportLabels {
  import opened Strings
  import opened PyData
  import opened Ordering
  import opened LabelerDisplay

  // ---------------------------------------------------------------- paging

  /** .range(start, end) on a table: the rows at positions start..end,
      both ends included, cut off at the end of the table. */
  function Page(table: seq<Dict>, start: nat, end: int): (r: seq<Dict>)
    ensures start < |table| && start <= end ==> r != []
    ensures |r| <= |table|
  {
    if start >= |table| || end < start then []
    else table[start..if end + 1 < |table| then end + 1 else |table|]
  }

  /** The rows a page query sees: all of them, or those whose timestamp is at
      or after `since` when `since` is given and non-empty. */
  function Visible(table: seq<Dict>, since: Option<string>, atOrAfter: (Dict, string) -> bool): seq<Dict>
  {
    if since.Some? && since.value != "" then Filter(table, row => atOrAfter(row, since.value)) else table
  }

  /** fetch_labels: ask for pages of `chunk` rows from position 0 on, keep the
      rows, and stop at the first empty or short page. `requests` lists the
      (start, end) of every page asked for. */
  method FetchLabels(table: seq<Dict>, chunk: nat, since: Option<string>, atOrAfter: (Dict, string) -> bool)
    returns (rows: seq<Dict>, requests: seq<(int, int)>)
    requires chunk >= 1
    ensures rows == Visible(table, since, atOrAfter)
    ensures (|requests| - 1) * chunk <= |rows| < |requests| * chunk
    ensures forall k :: 0 <= k < |requests| ==> requests[k] == (k * chunk, k * chunk + chunk - 1)
  {
    var visible := Visible(table, since, atOrAfter);
    var start: nat := 0;
    var end: int := chunk - 1;
    rows := [];
    requests := [];
    while true
      invariant start == |requests| * chunk && end == start + chunk - 1
      invariant start <= |visible| && rows == visible[..start]
      invariant forall k :: 0 <= k < |requests| ==> requests[k] == (k * chunk, k * chunk + chunk - 1)
      decreases |visible| - start
    {
      var data := Page(visible, start, end);
      var m := |requests|;
      requests := requests + [(start, end)];
      if data == [] {
        assert start == |visible|;
        assert visible[..start] == visible;
        return;
      }
      assert data == visible[start..start + |data|];
      assert visible[..start + |data|] == visible[..start] + data;
      rows := rows + data;
      if |data| < chunk {
        assert start + |data| == |visible|;
        assert visible[..|visible|] == visible;
        return;
      }
      start := start + chunk;
      end := end + chunk;
    }
  }

  // ---------------------------------------------------------------- flattening

  /** The options of the observed-conditions checklist: feature key and label. */
  const ObservedOptions: seq<(string, string)> := [
    ("lying_face_down", "Person lying face down"),
    ("safety_issue", "Immediate safety issue"),
    ("drugs", "Drug use or paraphernalia"),
    ("blocking", "Blocking right-of-way"),
    ("on_ramp", "Near freeway on/off ramp"),
    ("propane_or_flame", "Propane, open flame, or generator"),
    ("children_present", "Children present"),
    ("wheelchair", "Mobility device mentioned")
  ]

  /** The columns of the CSV, in order. */
  const CsvColumns: seq<string> := ["label_id", "request_id", "annotator_uid", "annotator_email",
    "role", "priority", "tents_count", "goa_window", "goa_window_label", "routing_department",
    "routing_other", "num_people_bin", "size_feet_bin", "observed_conditions", "outcome_alignment",
    "follow_up_need", "notes", "review_status", "review_notes", "timestamp"]

  /** The features map of a row: `features or {}`, a string decoded as JSON
      (a string that does not decode counts as {}). Anything that is not a
      dictionary then has no .get, which raises AttributeError. */
  function FeaturesOf(row: Dict, parseJson: string -> Option<Value>): (r: Result<Dict>)
    ensures var f := Or(Get(row, "features"), VDict([]));
      f.VStr? && parseJson(f.s).None? ==> r == Success([])
    ensures var f := Or(Get(row, "features"), VDict([]));
      f.VDict? ==> r == Success(f.entries)
  {
    var f := Or(Get(row, "features"), VDict([]));
    var decoded := if f.VStr? then (if parseJson(f.s).Some? then parseJson(f.s).value else VDict([])) else f;
    if decoded.VDict? then Success(decoded.entries) else Failure("AttributeError")
  }

  /** The follow-up needs as a list: a string is a one-item list, any other
      non-list is empty. */
  function FollowUpItems(v: Value): (r: seq<Value>)
    ensures v.VStr? ==> r == [v]
    ensures v.VList? ==> r == v.items
    ensures !v.VStr? && !v.VList? ==> r == []
  {
    if v.VStr? then [v] else if v.VList? then v.items else []
  }

  /** ";".join(items): every item must be a string, else TypeError. */
  function JoinStrings(sep: string, items: seq<Value>): (r: Result<string>)
    ensures r.Success? <==> forall i :: 0 <= i < |items| ==> items[i].VStr?
    ensures r.Success? ==> r.value == Join(sep, seq(|items|, i requires 0 <= i < |items| => items[i].s))
    decreases |items|
  {
    if items == [] then Success("")
    else if !items[0].VStr? then Failure("TypeError")
    else
      var rest := JoinStrings(sep, items[1..]);
      if rest.Failure? then rest
      else
        var strs := seq(|items|, i requires 0 <= i < |items| => items[i].s);
        assert strs[1..] == seq(|items[1..]|, i requires 0 <= i < |items[1..]| => items[1..][i].s);
        Success(if |items| == 1 then items[0].s else items[0].s + sep + rest.value)
  }

  /** The labels of the options whose feature is truthy, in option order. */
  function Observed(features: Dict, options: seq<(string, string)>): (r: seq<string>)
    ensures |r| <= |options|
  {
    if options == [] then []
    else
      (if Truthy(Get(features, options[0].0)) then [options[0].1] else []) + Observed(features, options[1..])
  }

  /** An option's label is listed exactly when its feature is truthy (the
      labels being distinct), and the list keeps option order. */
  lemma {:induction false} ObservedSpec(features: Dict, options: seq<(string, string)>)
    requires forall i, j :: 0 <= i < j < |options| ==> options[i].1 != options[j].1
    ensures forall i :: 0 <= i < |options| ==> (options[i].1 in Observed(features, options) <==> Truthy(Get(features, options[i].0)))
    ensures IsSubseq(Observed(features, options), seq(|options|, i requires 0 <= i < |options| => options[i].1))
  {
    if options != [] {
      var rest := options[1..];
      ObservedSpec(features, rest);
      var labels := seq(|options|, i requires 0 <= i < |options| => options[i].1);
      var restLabels := seq(|rest|, i requires 0 <= i < |rest| => rest[i].1);
      assert labels == [options[0].1] + restLabels;
      assert labels[1..] == restLabels;
      assert options[0].1 !in Observed(features, rest) by {
        if options[0].1 in Observed(features, rest) {
          forall j | 0 <= j < |rest| ensures options[0].1 != rest[j].1 { assert rest[j] == options[j + 1]; }
          var k :| 0 <= k < |Observed(features, rest)| && Observed(features, rest)[k] == options[0].1;
          ObservedMember(features, rest, k);
        }
      }
      forall i | 1 <= i < |options|
        ensures options[i].1 in Observed(features, options) <==> Truthy(Get(features, options[i].0))
      {
        assert options[i] == rest[i - 1];
        assert options[i].1 != options[0].1;
      }
      if Truthy(Get(features, options[0].0)) {
        assert Observed(features, options)[1..] == Observed(features, rest);
      } else {
        assert Observed(features, options) == Observed(features, rest);
        IsSubseqSkip(Observed(features, rest), options[0].1, restLabels);
      }
    }
  }

  /** Every listed label is the label of some option. */
  lemma {:induction false} ObservedMember(features: Dict, options: seq<(string, string)>, k: int)
    requires 0 <= k < |Observed(features, options)|
    ensures exists j :: 0 <= j < |options| && options[j].1 == Observed(features, options)[k]
  {
    var head := if Truthy(Get(features, options[0].0)) then [options[0].1] else [];
    if k < |head| {
      assert Observed(features, options)[k] == options[0].1;
    } else {
      ObservedMember(features, options[1..], k - |head|);
      var j :| 0 <= j < |options[1..]| && options[1..][j].1 == Observed(features, options[1..])[k - |head|];
      assert options[j + 1].1 == Observed(features, options)[k];
    }
  }

  /** The twenty CSV fields, given the row, its features, the resolved window
      and the joined follow-up needs. */
  function FlatFields(row: Dict, f: Dict, goa: string, followUp: string): (r: Dict)
    ensures Keys(r) == CsvColumns
  {
    ZipDict(CsvColumns, FlatValues(row, f, goa, followUp))
  }

  /** The label written for a window: the stored one, else the key with
      underscores as spaces, title-cased. */
  function ExportGoaLabel(goa: string): string
  {
    var known := GoaWindowLabelOf(goa);
    if known.Some? then known.value else Title(ReplaceChar(goa, '_', ' '))
  }

  /** The labels of the truthy conditions, joined by ";". */
  function ObservedConditions(f: Dict): string
  {
    Join(";", Observed(f, ObservedOptions))
  }

  /** The values of the twenty CSV fields, in column order. */
  function FlatValues(row: Dict, f: Dict, goa: string, followUp: string): (vs: seq<Value>)
    ensures |vs| == |CsvColumns|
  {
    [Get(row, "label_id"),
     Get(row, "request_id"),
     Get(row, "annotator_uid"),
     Get(row, "annotator_email"),
     Get(row, "role"),
     Get(row, "priority"),
     Get(f, "tents_count"),
     VStr(goa),
     VStr(ExportGoaLabel(goa)),
     Get(f, "routing_department"),
     Get(f, "routing_other"),
     Get(f, "num_people_bin"),
     Get(f, "size_feet_bin"),
     VStr(ObservedConditions(f)),
     Get(row, "outcome_alignment"),
     VStr(followUp),
     Get(row, "notes"),
     Get(row, "review_status"),
     Get(row, "review_notes"),
     Get(row, "timestamp")]
  }

  /** flatten_row: the twenty CSV fields of a label row. It raises when the
      features are not a dictionary or a follow-up item is not a string. */
  function FlattenRow(row: Dict, parseJson: string -> Option<Value>): (r: Result<Dict>)
  {
    var features := FeaturesOf(row, parseJson);
    var followUp := JoinStrings(";", FollowUpItems(Get(row, "follow_up_need")));
    if features.Failure? then Failure(features.error)
    else if followUp.Failure? then Failure(followUp.error)
    else Success(FlatFields(row, features.value, ResolveGoaWindow(VDict(features.value)), followUp.value))
  }

  /** When flattening succeeds, the keys are exactly the CSV columns, in order. */
  lemma FlattenRowKeys(row: Dict, parseJson: string -> Option<Value>)
    requires FlattenRow(row, parseJson).Success?
    ensures Keys(FlattenRow(row, parseJson).value) == CsvColumns
  {
  }

  /** d.get on a flattened row reads the column's own value. */
  lemma FlatFieldsAt(row: Dict, f: Dict, goa: string, followUp: string, i: int)
    requires 0 <= i < |CsvColumns|
    ensures Get(FlatFields(row, f, goa, followUp), CsvColumns[i]) == FlatValues(row, f, goa, followUp)[i]
  {
    CsvColumnsDistinct();
    ColumnRowGet(FlatFields(row, f, goa, followUp), CsvColumns, i);
  }

  /** The computed fields of a flattened row: the window, its label (the
      stored one for a known window), the conditions and the follow-ups. */
  lemma FlatFieldsComputed(row: Dict, f: Dict, goa: string, followUp: string)
    requires goa in GoaWindowValues
    ensures GoaWindowLabelOf(goa).Some?
    ensures Get(FlatFields(row, f, goa, followUp), "goa_window") == VStr(goa)
    ensures Get(FlatFields(row, f, goa, followUp), "goa_window_label") == VStr(GoaWindowLabelOf(goa).value)
    ensures Get(FlatFields(row, f, goa, followUp), "observed_conditions") == VStr(Join(";", Observed(f, ObservedOptions)))
    ensures Get(FlatFields(row, f, goa, followUp), "follow_up_need") == VStr(followUp)
  {
    FlatFieldsAt(row, f, goa, followUp, 7);
    FlatFieldsAt(row, f, goa, followUp, 8);
    FlatFieldsAt(row, f, goa, followUp, 13);
    FlatFieldsAt(row, f, goa, followUp, 15);
  }

  /** The label, request and annotator ids of a flattened row are the row's own. */
  lemma FlatCopiesIds(row: Dict, f: Dict, goa: string, followUp: string)
    ensures Get(FlatFields(row, f, goa, followUp), "label_id") == Get(row, "label_id")
    ensures Get(FlatFields(row, f, goa, followUp), "request_id") == Get(row, "request_id")
    ensures Get(FlatFields(row, f, goa, followUp), "annotator_uid") == Get(row, "annotator_uid")
  {
    FlatFieldsAt(row, f, goa, followUp, 0);
    FlatFieldsAt(row, f, goa, followUp, 1);
    FlatFieldsAt(row, f, goa, followUp, 2);
  }

  /** The annotator email, role and priority fields of a flattened row are the row's own. */
  lemma FlatCopiesAnnotator(row: Dict, f: Dict, goa: string, followUp: string)
    ensures Get(FlatFields(row, f, goa, followUp), "annotator_email") == Get(row, "annotator_email")
    ensures Get(FlatFields(row, f, goa, followUp), "role") == Get(row, "role")
    ensures Get(FlatFields(row, f, goa, followUp), "priority") == Get(row, "priority")
  {
    FlatFieldsAt(row, f, goa, followUp, 3);
    FlatFieldsAt(row, f, goa, followUp, 4);
    FlatFieldsAt(row, f, goa, followUp, 5);
  }

  /** The outcome, notes and review status of a flattened row are the row's own. */
  lemma FlatCopiesOutcome(row: Dict, f: Dict, goa: string, followUp: string)
    ensures Get(FlatFields(row, f, goa, followUp), "outcome_alignment") == Get(row, "outcome_alignment")
    ensures Get(FlatFields(row, f, goa, followUp), "notes") == Get(row, "notes")
    ensures Get(FlatFields(row, f, goa, followUp), "review_status") == Get(row, "review_status")
  {
    FlatFieldsAt(row, f, goa, followUp, 14);
    FlatFieldsAt(row, f, goa, followUp, 16);
    FlatFieldsAt(row, f, goa, followUp, 17);
  }

  /** The review notes and timestamp of a flattened row are the row's own. */
  lemma FlatCopiesReviewFields(row: Dict, f: Dict, goa: string, followUp: string)
    ensures Get(FlatFields(row, f, goa, followUp), "review_notes") == Get(row, "review_notes")
    ensures Get(FlatFields(row, f, goa, followUp), "timestamp") == Get(row, "timestamp")
  {
    FlatFieldsAt(row, f, goa, followUp, 18);
    FlatFieldsAt(row, f, goa, followUp, 19);
  }

  /** The tents count and routing fields of a flattened row are the features' own. */
  lemma FlatCopiesCounts(row: Dict, f: Dict, goa: string, followUp: string)
    ensures Get(FlatFields(row, f, goa, followUp), "tents_count") == Get(f, "tents_count")
    ensures Get(FlatFields(row, f, goa, followUp), "routing_department") == Get(f, "routing_department")
    ensures Get(FlatFields(row, f, goa, followUp), "routing_other") == Get(f, "routing_other")
  {
    FlatFieldsAt(row, f, goa, followUp, 6);
    FlatFieldsAt(row, f, goa, followUp, 9);
    FlatFieldsAt(row, f, goa, followUp, 10);
  }

  /** The bin fields of a flattened row are the features' own. */
  lemma FlatCopiesBins(row: Dict, f: Dict, goa: string, followUp: string)
    ensures Get(FlatFields(row, f, goa, followUp), "num_people_bin") == Get(f, "num_people_bin")
    ensures Get(FlatFields(row, f, goa, followUp), "size_feet_bin") == Get(f, "size_feet_bin")
  {
    FlatFieldsAt(row, f, goa, followUp, 11);
    FlatFieldsAt(row, f, goa, followUp, 12);
  }

  /** The computed fields of a flattened row: the resolved GOA window with
      its stored label, the truthy conditions joined by ";" and the
      follow-up needs joined by ";". */
  lemma FlattenRowFields(row: Dict, parseJson: string -> Option<Value>)
    requires FlattenRow(row, parseJson).Success?
    ensures FeaturesOf(row, parseJson).Success?
    ensures JoinStrings(";", FollowUpItems(Get(row, "follow_up_need"))).Success?
    ensures var r := FlattenRow(row, parseJson).value;
      var goa := ResolveGoaWindow(VDict(FeaturesOf(row, parseJson).value));
      goa in GoaWindowValues && GoaWindowLabelOf(goa).Some? &&
      Get(r, "goa_window") == VStr(goa) && Get(r, "goa_window_label") == VStr(GoaWindowLabelOf(goa).value)
    ensures var r := FlattenRow(row, parseJson).value;
      Get(r, "observed_conditions") == VStr(Join(";", Observed(FeaturesOf(row, parseJson).value, ObservedOptions)))
    ensures var r := FlattenRow(row, parseJson).value;
      Get(r, "follow_up_need") == VStr(JoinStrings(";", FollowUpItems(Get(row, "follow_up_need"))).value)
  {
    var f := FeaturesOf(row, parseJson).value;
    var goa := ResolveGoaWindow(VDict(f));
    var followUp := JoinStrings(";", FollowUpItems(Get(row, "follow_up_need"))).value;
    assert FlattenRow(row, parseJson).value == FlatFields(row, f, goa, followUp);
    FlatFieldsComputed(row, f, goa, followUp);
  }

  /** The identity and review fields of a flattened row are the row's own. */
  lemma FlattenRowCopiesRow(row: Dict, parseJson: string -> Option<Value>)
    requires FlattenRow(row, parseJson).Success?
    ensures Get(FlattenRow(row, parseJson).value, "label_id") == Get(row, "label_id")
    ensures Get(FlattenRow(row, parseJson).value, "request_id") == Get(row, "request_id")
    ensures Get(FlattenRow(row, parseJson).value, "annotator_uid") == Get(row, "annotator_uid")
    ensures Get(FlattenRow(row, parseJson).value, "annotator_email") == Get(row, "annotator_email")
    ensures Get(FlattenRow(row, parseJson).value, "role") == Get(row, "role")
    ensures Get(FlattenRow(row, parseJson).value, "priority") == Get(row, "priority")
  {
    var f := FeaturesOf(row, parseJson).value;
    var goa := ResolveGoaWindow(VDict(f));
    var followUp := JoinStrings(";", FollowUpItems(Get(row, "follow_up_need"))).value;
    assert FlattenRow(row, parseJson).value == FlatFields(row, f, goa, followUp);
    FlatCopiesIds(row, f, goa, followUp);
    FlatCopiesAnnotator(row, f, goa, followUp);
  }

  /** The outcome, notes, review and timestamp fields of a flattened row are the row's own. */
  lemma FlattenRowCopiesReview(row: Dict, parseJson: string -> Option<Value>)
    requires FlattenRow(row, parseJson).Success?
    ensures Get(FlattenRow(row, parseJson).value, "outcome_alignment") == Get(row, "outcome_alignment")
    ensures Get(FlattenRow(row, parseJson).value, "notes") == Get(row, "notes")
    ensures Get(FlattenRow(row, parseJson).value, "review_status") == Get(row, "review_status")
    ensures Get(FlattenRow(row, parseJson).value, "review_notes") == Get(row, "review_notes")
    ensures Get(FlattenRow(row, parseJson).value, "timestamp") == Get(row, "timestamp")
  {
    var f := FeaturesOf(row, parseJson).value;
    var goa := ResolveGoaWindow(VDict(f));
    var followUp := JoinStrings(";", FollowUpItems(Get(row, "follow_up_need"))).value;
    assert FlattenRow(row, parseJson).value == FlatFields(row, f, goa, followUp);
    FlatCopiesOutcome(row, f, goa, followUp);
    FlatCopiesReviewFields(row, f, goa, followUp);
  }

  /** The count, routing and bin fields of a flattened row are the features' own. */
  lemma FlattenRowCopiesFeatures(row: Dict, parseJson: string -> Option<Value>)
    requires FlattenRow(row, parseJson).Success?
    ensures FeaturesOf(row, parseJson).Success?
    ensures Get(FlattenRow(row, parseJson).value, "tents_count") == Get(FeaturesOf(row, parseJson).value, "tents_count")
    ensures Get(FlattenRow(row, parseJson).value, "routing_department") == Get(FeaturesOf(row, parseJson).value, "routing_department")
    ensures Get(FlattenRow(row, parseJson).value, "routing_other") == Get(FeaturesOf(row, parseJson).value, "routing_other")
    ensures Get(FlattenRow(row, parseJson).value, "num_people_bin") == Get(FeaturesOf(row, parseJson).value, "num_people_bin")
    ensures Get(FlattenRow(row, parseJson).value, "size_feet_bin") == Get(FeaturesOf(row, parseJson).value, "size_feet_bin")
  {
    var f := FeaturesOf(row, parseJson).value;
    var goa := ResolveGoaWindow(VDict(f));
    var followUp := JoinStrings(";", FollowUpItems(Get(row, "follow_up_need"))).value;
    assert FlattenRow(row, parseJson).value == FlatFields(row, f, goa, followUp);
    FlatCopiesCounts(row, f, goa, followUp);
    FlatCopiesBins(row, f, goa, followUp);
  }

  /** Flattening fails only for non-dictionary features or a non-string follow-up item. */
  lemma FlattenRowFails(row: Dict, parseJson: string -> Option<Value>)
    ensures FlattenRow(row, parseJson).Failure? <==>
      FeaturesOf(row, parseJson).Failure? ||
      exists i :: 0 <= i < |FollowUpItems(Get(row, "follow_up_need"))| &&
        !FollowUpItems(Get(row, "follow_up_need"))[i].VStr?
  {
    var items := FollowUpItems(Get(row, "follow_up_need"));
    if JoinStrings(";", items).Failure? {
      assert !(forall i :: 0 <= i < |items| ==> items[i].VStr?);
    }
  }

  // ---------------------------------------------------------------- CSV

  /** A CSV cell: None and an absent key (restval "") are written as empty,
      anything else as str(). */
  function CsvCell(v: Value): (r: string)
    ensures v.VStr? ==> r == v.s
    ensures v == VNone ==> r == ""
  {
    if v == VNone then "" else Str(v)
  }

  /** DictWriter.writerow with the default extrasaction "raise": a key outside
      the field names raises ValueError, otherwise one cell per field name. */
  function CsvRecord(row: Dict, columns: seq<string>): (r: Result<seq<string>>)
    ensures r.Success? <==> forall k :: k in Keys(row) ==> k in columns
    ensures r.Success? ==> |r.value| == |columns|
    ensures r.Success? ==> forall i :: 0 <= i < |columns| ==> r.value[i] == CsvCell(Get(row, columns[i]))
  {
    if exists k :: k in Keys(row) && k !in columns then Failure("ValueError")
    else Success(seq(|columns|, i requires 0 <= i < |columns| => CsvCell(Get(row, columns[i]))))
  }

  /** The records of the rows in order; the first row that raises ends the write. */
  function CsvRecords(rows: seq<Dict>, columns: seq<string>): (r: Result<seq<seq<string>>>)
    ensures r.Success? ==> |r.value| == |rows|
    decreases |rows|
  {
    if rows == [] then Success([])
    else
      var first := CsvRecord(rows[0], columns);
      if first.Failure? then Failure(first.error)
      else
        var rest := CsvRecords(rows[1..], columns);
        if rest.Failure? then rest else Success([first.value] + rest.value)
  }

  /** write_csv: no rows means no file (None); otherwise the header line of
      the twenty columns followed by one record per row. */
  function WriteCsv(rows: seq<Dict>): (r: Result<Option<seq<seq<string>>>>)
    ensures rows == [] ==> r == Success(None)
    ensures r.Success? && r.value.Some? ==> r.value.value != [] && r.value.value[0] == CsvColumns
  {
    if rows == [] then Success(None)
    else
      var records := CsvRecords(rows, CsvColumns);
      if records.Failure? then Failure(records.error) else Success(Some([CsvColumns] + records.value))
  }

  /** The records are written exactly when every row's keys are columns, and
      each record then holds the row's cells in column order. */
  lemma {:induction false} CsvRecordsSpec(rows: seq<Dict>, columns: seq<string>)
    ensures CsvRecords(rows, columns).Success? <==> forall j :: 0 <= j < |rows| ==> CsvRecord(rows[j], columns).Success?
    ensures CsvRecords(rows, columns).Success? ==>
      forall j :: 0 <= j < |rows| ==> CsvRecords(rows, columns).value[j] == CsvRecord(rows[j], columns).value
    decreases |rows|
  {
    if rows != [] {
      CsvRecordsSpec(rows[1..], columns);
      assert forall j :: 1 <= j < |rows| ==> rows[j] == rows[1..][j - 1];
    }
  }

  /** The column names are distinct. */
  lemma CsvColumnsDistinct()
    ensures NoDup(CsvColumns) && |CsvColumns| == 20
  {
  }

  /** A row whose keys are the (distinct) columns is written as its own
      values, in order. */
  lemma RecordOfColumnRow(row: Dict, columns: seq<string>)
    requires Keys(row) == columns && NoDup(columns)
    ensures CsvRecord(row, columns) == Success(seq(|row|, i requires 0 <= i < |row| => CsvCell(row[i].1)))
  {
    var r := CsvRecord(row, columns);
    assert r.Success?;
    var expected := seq(|row|, i requires 0 <= i < |row| => CsvCell(row[i].1));
    forall i | 0 <= i < |row| ensures r.value[i] == expected[i] {
      ColumnRowGet(row, columns, i);
    }
    assert r.value == expected;
  }

  lemma ColumnRowGet(row: Dict, columns: seq<string>, i: int)
    requires Keys(row) == columns && NoDup(columns) && 0 <= i < |row|
    ensures Get(row, columns[i]) == row[i].1
  {
    assert row[i].0 == Keys(row)[i];
    forall j | 0 <= j < i ensures row[j].0 != row[i].0 { assert row[j].0 == Keys(row)[j]; }
    GetAt(row, i);
  }

  /** Rows keyed by the columns always write: the header, then one record
      per row holding its values in column order. */
  lemma ColumnRowsWrite(flat: seq<Dict>)
    requires flat != []
    requires forall j :: 0 <= j < |flat| ==> Keys(flat[j]) == CsvColumns
    ensures WriteCsv(flat).Success? && WriteCsv(flat).value.Some?
    ensures var lines := WriteCsv(flat).value.value;
      |lines| == |flat| + 1 && lines[0] == CsvColumns &&
      forall j :: 0 <= j < |flat| ==>
        lines[j + 1] == seq(|flat[j]|, i requires 0 <= i < |flat[j]| => CsvCell(flat[j][i].1))
  {
    CsvColumnsDistinct();
    forall j | 0 <= j < |flat|
      ensures CsvRecord(flat[j], CsvColumns) == Success(seq(|flat[j]|, i requires 0 <= i < |flat[j]| => CsvCell(flat[j][i].1)))
    {
      RecordOfColumnRow(flat[j], CsvColumns);
    }
    CsvRecordsSpec(flat, CsvColumns);
    var records := CsvRecords(flat, CsvColumns);
    assert records.Success?;
    var lines := [CsvColumns] + records.value;
    assert WriteCsv(flat) == Success(Some(lines));
    forall j | 0 <= j < |flat| ensures lines[j + 1] == records.value[j] { }
  }

  /** Exported rows always write: the header, then one record per label row
      holding the flattened row's values in column order. */
  lemma FlattenedRowsWrite(rows: seq<Dict>, parseJson: string -> Option<Value>, flat: seq<Dict>)
    requires rows != [] && |flat| == |rows|
    requires forall j :: 0 <= j < |rows| ==> FlattenRow(rows[j], parseJson) == Success(flat[j])
    ensures WriteCsv(flat).Success? && WriteCsv(flat).value.Some?
    ensures var lines := WriteCsv(flat).value.value;
      |lines| == |rows| + 1 && lines[0] == CsvColumns &&
      forall j :: 0 <= j < |rows| ==>
        lines[j + 1] == seq(|flat[j]|, i requires 0 <= i < |flat[j]| => CsvCell(flat[j][i].1))
  {
    forall j | 0 <= j < |flat| ensures Keys(flat[j]) == CsvColumns {
      FlattenRowKeys(rows[j], parseJson);
    }
    ColumnRowsWrite(flat);
  }
}
