/** The photo analysis: its own variant of the status buckets, and the
    markdown table of bucket shares with and without a photo. */
module GoaPhoto {
  import opened Strings
  import opened Ordering
  import opened PyData
  import opened GoaResolution

  /** The decision list of this script's bucket_status: the status and note
      are lowercased but not stripped; only the blank test strips. */
  function PhotoClassify(status: Option<string>, note: Option<string>): Bucket
  {
    var statusLower := Lower(OrEmpty(status));
    var noteLower := Lower(OrEmpty(note));
    Decide(statusLower, noteLower, Strip(noteLower) == "")
  }

  /** bucket_status: the name of the bucket, always one of STATUS_ORDER. */
  function PhotoBucketStatus(status: Option<string>, note: Option<string>): (r: string)
    ensures r in StatusOrder
  {
    var b := PhotoClassify(status, note);
    LabelListed(b);
    Label(b)
  }

  /** The decision list, rule by rule: only a lowercased status of exactly
      "open" gives Open; then a whitespace-only note gives Unknown; then an
      "unable to locate" or "goa" mention gives Unable to Locate; then the
      "case resolved" prefix, tested on the unstripped note. */
  lemma PhotoClassifyRules(status: Option<string>, note: Option<string>)
    ensures var s := Lower(OrEmpty(status));
      var n := Lower(OrEmpty(note));
      var mention := Contains(n, "unable to locate") || Contains(n, "goa");
      var b := PhotoClassify(status, note);
      (b == Open <==> s == "open") &&
      (b == Unknown <==> s != "open" && IsBlank(OrEmpty(note))) &&
      (b == UnableToLocate <==> s != "open" && !IsBlank(OrEmpty(note)) && mention) &&
      (b == CaseResolved <==> s != "open" && !IsBlank(OrEmpty(note)) && !mention && StartsWith(n, "case resolved")) &&
      (b == OtherClosedNotes <==> s != "open" && !IsBlank(OrEmpty(note)) && !mention && !StartsWith(n, "case resolved"))
  {
    var n := Lower(OrEmpty(note));
    DecideRules(Lower(OrEmpty(status)), n, Strip(n) == "");
    LoweredBlank(OrEmpty(note));
  }

  /** The blank test on the lowercased note is the blank test on the note. */
  lemma LoweredBlank(s: string)
    ensures Strip(Lower(s)) == "" <==> IsBlank(s)
  {
    StripEmptyIffBlank(Lower(s));
    LowerBlank(s);
  }

  /** On a status and a note without surrounding whitespace the two scripts
      bucket alike. */
  lemma BucketsAgreeOnTrimmed(status: Option<string>, note: Option<string>)
    requires Strip(OrEmpty(status)) == OrEmpty(status) && Strip(OrEmpty(note)) == OrEmpty(note)
    ensures PhotoClassify(status, note) == Classify(status, note)
  {
    LoweredBlank(OrEmpty(note));
    StripEmptyIffBlank(OrEmpty(note));
    LowerEmpty(OrEmpty(note));
  }

  lemma LowerEmpty(s: string)
    ensures Lower(s) == "" <==> s == ""
  {
  }

  /** They differ on surrounding whitespace: a status that is "open" once
      stripped but starts with a space is Open for the resolution script and
      not for this one. */
  lemma BucketsDifferOnPadding(status: string)
    requires Lower(Strip(status)) == "open" && |status| > 0 && IsSpace(status[0])
    ensures Classify(Some(status), None) == Open
    ensures PhotoClassify(Some(status), None) != Open
  {
    assert Lower(status)[0] == LowerChar(status[0]);
  }

  // ---------------------------------------------------------------- status table

  /** A row of the share table: has_photo_label, status_bucket, share_pct. */
  datatype ShareRow = ShareRow(photoLabel: string, bucket: string, sharePct: real)

  predicate Matches(row: ShareRow, lbl: string, bucket: string)
  {
    row.photoLabel == lbl && row.bucket == bucket
  }

  /** The share of the first row with that label and bucket, 0.0 when there is none. */
  function FirstShare(df: seq<ShareRow>, lbl: string, bucket: string): (r: real)
    ensures (forall i :: 0 <= i < |df| ==> !Matches(df[i], lbl, bucket)) ==> r == 0.0
    ensures (exists i :: 0 <= i < |df| && Matches(df[i], lbl, bucket)) ==>
      exists i :: 0 <= i < |df| && Matches(df[i], lbl, bucket) && r == df[i].sharePct &&
        forall j :: 0 <= j < i ==> !Matches(df[j], lbl, bucket)
    decreases |df|
  {
    if df == [] then 0.0
    else if Matches(df[0], lbl, bucket) then df[0].sharePct
    else
      var r := FirstShare(df[1..], lbl, bucket);
      assert forall i :: 1 <= i < |df| ==> df[i] == df[1..][i - 1];
      r
  }

  const TableHeader: string := "| Status bucket" + " | With photo share" + " | No photo share |"
  const TableRule: string := "| --- | ---: | ---: |"

  /** One bucket's row; `pct` is the {:.1f} formatting. */
  function StatusRow(bucket: string, df: seq<ShareRow>, pct: real -> string): string
  {
    "| " + bucket + " | " + pct(FirstShare(df, "With photo", bucket)) + "% | " +
    pct(FirstShare(df, "No photo", bucket)) + "% |"
  }

  /** The lines of the table: the two header lines, then one row per bucket
      of STATUS_ORDER, in that order. */
  function StatusTableLines(df: seq<ShareRow>, pct: real -> string): (r: seq<string>)
    ensures |r| == 2 + |StatusOrder|
  {
    [TableHeader, TableRule] + seq(|StatusOrder|, k requires 0 <= k < |StatusOrder| => StatusRow(StatusOrder[k], df, pct))
  }

  /** write_status_table_md: the text written to the file. */
  method WriteStatusTableMd(df: seq<ShareRow>, pct: real -> string) returns (text: string)
    ensures text == Join("\n", StatusTableLines(df, pct))
  {
    ghost var spec := StatusTableLines(df, pct);
    var rows := [TableHeader, TableRule];
    for k := 0 to |StatusOrder|
      invariant rows == spec[..k + 2]
    {
      var bucket := StatusOrder[k];
      var withPct := FirstShare(df, "With photo", bucket);
      var noPct := FirstShare(df, "No photo", bucket);
      var row := "| " + bucket + " | " + pct(withPct) + "% | " + pct(noPct) + "% |";
      assert spec[k + 2] == StatusRow(bucket, df, pct) == row;
      assert spec[..k + 3] == spec[..k + 2] + [row];
      rows := rows + [row];
    }
    assert rows == spec;
    text := Join("\n", rows);
  }

  /** The file reads back, line by line, as the two header lines and one row
      per bucket in STATUS_ORDER, each starting with its bucket's name, as
      long as the share formatting writes no newline. */
  lemma StatusTableShape(df: seq<ShareRow>, pct: real -> string)
    requires forall x :: '\n' !in pct(x)
    ensures var lines := SplitOn(Join("\n", StatusTableLines(df, pct)), '\n');
      |lines| == 7 && lines[0] == TableHeader && lines[1] == TableRule &&
      forall k :: 0 <= k < 5 ==>
        lines[k + 2] == StatusRow(StatusOrder[k], df, pct) && StartsWith(lines[k + 2], "| " + StatusOrder[k] + " | ")
  {
    var lines := StatusTableLines(df, pct);
    HeaderNoNewline();
    StatusOrderLabels();
    forall i | 2 <= i < |lines| ensures '\n' !in lines[i] {
      var b := BucketOrder[i - 2];
      assert lines[i] == StatusRow(Label(b), df, pct);
      LabelNoNewline(b);
      StatusRowNoNewline(Label(b), df, pct);
    }
    forall k | 0 <= k < 5 ensures StartsWith(lines[k + 2], "| " + StatusOrder[k] + " | ") {
      StatusRowStarts(StatusOrder[k], df, pct);
    }
    SplitJoin(lines, '\n');
    assert Join("\n", lines) == Join(['\n'], lines);
  }

  lemma HeaderNoNewline()
    ensures '\n' !in TableHeader && '\n' !in TableRule
  {
    assert '\n' !in "| Status bucket";
    assert '\n' !in " | With photo share";
    assert '\n' !in " | No photo share |";
  }

  lemma LabelNoNewline(b: Bucket)
    ensures '\n' !in Label(b)
  {
    match b
    case CaseResolved =>
    case UnableToLocate =>
    case OtherClosedNotes =>
    case Open =>
    case Unknown =>
  }

  lemma StatusRowNoNewline(bucket: string, df: seq<ShareRow>, pct: real -> string)
    requires forall x :: '\n' !in pct(x)
    requires '\n' !in bucket
    ensures '\n' !in StatusRow(bucket, df, pct)
  {
    var a := pct(FirstShare(df, "With photo", bucket));
    var b := pct(FirstShare(df, "No photo", bucket));
    var x := "| " + bucket + " | ";
    assert '\n' !in x;
    var y := x + a + "% | ";
    assert '\n' !in y;
    assert StatusRow(bucket, df, pct) == y + b + "% |";
  }

  lemma StatusRowStarts(bucket: string, df: seq<ShareRow>, pct: real -> string)
    ensures StartsWith(StatusRow(bucket, df, pct), "| " + bucket + " | ")
  {
    var p := "| " + bucket + " | ";
    var rest := pct(FirstShare(df, "With photo", bucket)) + "% | " + pct(FirstShare(df, "No photo", bucket)) + "% |";
    assert StatusRow(bucket, df, pct) == p + rest;
    assert (p + rest)[..|p|] == p;
  }
}
