/** The label-set rules of scripts/labeler_utils.py: ordering a request's
    labels by time, resolving who wrote a label, the distinct contributors,
    the per-request contributor cap, the request classifier and the latest
    label of one annotator. */
module LabelerUtils {
  import opened PyData
  import opened Strings
  import opened Ordering

  /** A parsed timestamp, as an abstract ordered value. 0 stands for
      datetime.min, the key given to a label whose timestamp is missing or
      does not parse, so it orders no later than any parsed time. */
  type Stamp = nat

  /** One stored label, with the fields the rules read. The identity fields and
      the priority are None when absent; `timestamp` is the result of parse_iso
      on the stored text (None when missing or unparseable); `needsReview` is
      bool(label.get("needs_review")). */
  datatype Label = Label(
    annotatorUid: Option<string>,
    annotatorId: Option<string>,
    annotator: Option<string>,
    annotatorEmail: Option<string>,
    priority: Option<string>,
    timestamp: Option<Stamp>,
    needsReview: bool,
    status: Option<string>,
    notes: Option<string>)

  /** Python truthiness of an optional string. */
  predicate Present(v: Option<string>)
  {
    v.Some? && v.value != ""
  }

  /** parse_iso(l.get("timestamp")) or datetime.min */
  function StampKey(l: Label): Stamp
  {
    if l.timestamp.Some? then l.timestamp.value else 0
  }

  predicate StampLe(a: Label, b: Label)
  {
    StampKey(a) <= StampKey(b)
  }

  lemma StampLePreorder()
    ensures TotalPreorder(StampLe)
  {
  }

  /** sort_labels: the labels in timestamp order, stable among equal times. */
  function SortLabels(labels: seq<Label>): seq<Label>
  {
    SortBy(labels, StampLe)
  }

  /** sort_labels returns a permutation of its input, ordered by timestamp,
      with labels lacking a usable timestamp first. */
  lemma SortLabelsOrdered(labels: seq<Label>)
    ensures multiset(SortLabels(labels)) == multiset(labels)
    ensures forall i, j :: 0 <= i < j < |labels| ==> StampKey(SortLabels(labels)[i]) <= StampKey(SortLabels(labels)[j])
    ensures forall i, j :: 0 <= i < j < |labels| && SortLabels(labels)[j].timestamp.None? ==> StampKey(SortLabels(labels)[i]) == 0
  {
    StampLePreorder();
    SortBySorted(labels, StampLe);
  }

  /** sort_labels is stable: labels with the same timestamp key stay in input order. */
  lemma SortLabelsStable(labels: seq<Label>, c: Label)
    ensures Class(SortLabels(labels), StampLe, c) == Class(labels, StampLe, c)
  {
    StampLePreorder();
    SortByStable(labels, StampLe, c);
  }

  /** The identity fields in the order _label_uid consults them. */
  function IdentityFields(l: Label): seq<Option<string>>
  {
    [l.annotatorUid, l.annotatorId, l.annotator, l.annotatorEmail]
  }

  /** _label_uid: the first present identity field, or "" when none is. */
  function LabelUid(l: Label): (r: string)
    ensures r == "" <==> forall k :: 0 <= k < 4 ==> !Present(IdentityFields(l)[k])
    ensures r != "" ==> exists k :: 0 <= k < 4 && IdentityFields(l)[k] == Some(r)
                                  && forall j :: 0 <= j < k ==> !Present(IdentityFields(l)[j])
  {
    var f := IdentityFields(l);
    assert f[0] == l.annotatorUid && f[1] == l.annotatorId && f[2] == l.annotator && f[3] == l.annotatorEmail;
    if Present(l.annotatorUid) then l.annotatorUid.value
    else if Present(l.annotatorId) then l.annotatorId.value
    else if Present(l.annotator) then l.annotator.value
    else if Present(l.annotatorEmail) then l.annotatorEmail.value
    else ""
  }

  function Uids(labels: seq<Label>): (r: seq<string>)
    ensures |r| == |labels|
    ensures forall i :: 0 <= i < |labels| ==> r[i] == LabelUid(labels[i])
  {
    if labels == [] then [] else [LabelUid(labels[0])] + Uids(labels[1..])
  }

  /** The non-empty strings of us, each at its first appearance. */
  function FirstAppearances(us: seq<string>): (r: seq<string>)
  {
    if us == [] then []
    else
      var p := FirstAppearances(us[..|us| - 1]);
      var u := us[|us| - 1];
      if u != "" && u !in p then p + [u] else p
  }

  lemma {:induction false} FirstAppearancesMembers(us: seq<string>)
    ensures NoDup(FirstAppearances(us))
    ensures forall x :: x in FirstAppearances(us) <==> x in us && x != ""
  {
    if us != [] {
      var init := us[..|us| - 1];
      FirstAppearancesMembers(init);
      assert us == init + [us[|us| - 1]];
    }
  }

  /** Position of the first appearance of x in us. */
  function FirstIndex(us: seq<string>, x: string): nat
    requires x in us
  {
    IndexOf(us, x)
  }

  /** Contributors are listed in the order of their first labels. */
  lemma {:induction false} FirstAppearancesOrder(us: seq<string>)
    ensures forall i, j :: 0 <= i < j < |FirstAppearances(us)| ==>
      FirstAppearances(us)[i] in us && FirstAppearances(us)[j] in us &&
      FirstIndex(us, FirstAppearances(us)[i]) < FirstIndex(us, FirstAppearances(us)[j])
  {
    FirstAppearancesMembers(us);
    if us != [] {
      var init := us[..|us| - 1];
      var u := us[|us| - 1];
      FirstAppearancesOrder(init);
      FirstAppearancesMembers(init);
      assert us == init + [u];
      var p := FirstAppearances(init);
      var r := FirstAppearances(us);
      forall x | x in init ensures x in us && FirstIndex(us, x) == FirstIndex(init, x) {
        IndexOfPrefix(init, u, x);
      }
      forall i, j | 0 <= i < j < |r|
        ensures r[i] in us && r[j] in us && FirstIndex(us, r[i]) < FirstIndex(us, r[j])
      {
        if j < |p| {
          assert r[i] == p[i] && r[j] == p[j];
        } else {
          assert r[j] == u && u !in init && r[i] == p[i] && p[i] in init;
          assert FirstIndex(us, u) == |init| by {
            assert us[|init|] == u;
          }
        }
      }
    }
  }

  lemma IndexOfPrefix(s: seq<string>, y: string, x: string)
    requires x in s
    ensures x in s + [y] && IndexOf(s + [y], x) == IndexOf(s, x)
  {
    var k := IndexOf(s, x);
    assert (s + [y])[k] == x;
    var k' := IndexOf(s + [y], x);
    assert k' <= k;
    assert s[k'] == x;
  }

  /** One more identity: it is kept when non-empty and not yet seen. */
  lemma FirstAppearancesStep(us: seq<string>, i: int)
    requires 0 <= i < |us|
    ensures FirstAppearances(us[..i + 1]) ==
      if us[i] != "" && us[i] !in FirstAppearances(us[..i]) then FirstAppearances(us[..i]) + [us[i]]
      else FirstAppearances(us[..i])
  {
    assert us[..i + 1][..i] == us[..i];
  }

  /** unique_annotators, as the value its loop computes. */
  function Annotators(labels: seq<Label>): seq<string>
  {
    FirstAppearances(Uids(SortLabels(labels)))
  }

  /** unique_annotators: scan the labels in timestamp order, keeping each
      non-empty identity the first time it is met. */
  method UniqueAnnotators(labels: seq<Label>) returns (seen: seq<string>)
    ensures seen == Annotators(labels)
  {
    var sorted := SortLabels(labels);
    var us := Uids(sorted);
    seen := [];
    var i := 0;
    while i < |sorted|
      invariant 0 <= i <= |sorted|
      invariant seen == FirstAppearances(us[..i])
    {
      var annot := LabelUid(sorted[i]);
      FirstAppearancesStep(us, i);
      if annot != "" && annot !in seen {
        seen := seen + [annot];
      }
      i := i + 1;
    }
    assert us[..|sorted|] == us;
  }

  /** The distinct contributors: no repeats, no empty identity, exactly the
      identities some label resolves to, in first-appearance order over the
      timestamp-sorted labels. */
  lemma AnnotatorsSpec(labels: seq<Label>)
    ensures NoDup(Annotators(labels))
    ensures forall x :: x in Annotators(labels) <==> x != "" && exists l :: l in labels && LabelUid(l) == x
    ensures forall i, j :: 0 <= i < j < |Annotators(labels)| ==>
      var us := Uids(SortLabels(labels));
      Annotators(labels)[i] in us && Annotators(labels)[j] in us &&
      FirstIndex(us, Annotators(labels)[i]) < FirstIndex(us, Annotators(labels)[j])
  {
    var sorted := SortLabels(labels);
    var us := Uids(sorted);
    FirstAppearancesMembers(us);
    FirstAppearancesOrder(us);
    SortLabelsOrdered(labels);
    forall x ensures x in us <==> exists l :: l in labels && LabelUid(l) == x {
      if x in us {
        var i :| 0 <= i < |us| && us[i] == x;
        assert sorted[i] in multiset(labels);
      } else {
        forall l | l in labels ensures LabelUid(l) != x {
          assert l in multiset(sorted);
          var i :| 0 <= i < |sorted| && sorted[i] == l;
          assert us[i] == LabelUid(l);
        }
      }
    }
  }

  /** The set of non-empty identities among the labels. */
  function UidSet(labels: seq<Label>): set<string>
  {
    set l | l in labels && LabelUid(l) != "" :: LabelUid(l)
  }

  lemma {:induction false} NoDupCard(s: seq<string>)
    requires NoDup(s)
    ensures |set x | x in s| == |s|
  {
    if s != [] {
      var init := s[..|s| - 1];
      assert NoDup(init);
      NoDupCard(init);
      assert s == init + [s[|s| - 1]];
      assert (set x | x in s) == (set x | x in init) + {s[|s| - 1]};
    }
  }

  /** The number of distinct contributors is the number of distinct identities. */
  lemma AnnotatorsCount(labels: seq<Label>)
    ensures |Annotators(labels)| == |UidSet(labels)|
  {
    AnnotatorsSpec(labels);
    NoDupCard(Annotators(labels));
    assert (set x | x in Annotators(labels)) == UidSet(labels);
  }

  const DefaultMaxAnnotators: int := 3

  /** can_annotator_label: an existing contributor may always label again; a
      newcomer only while fewer than maxAnnotators people have contributed. */
  function CanAnnotatorLabel(labels: seq<Label>, annotator: string, maxAnnotators: int): (r: bool)
  {
    annotator in Annotators(labels) || |Annotators(labels)| < maxAnnotators
  }

  /** An existing contributor passes whatever the cap; a newcomer passes iff
      the distinct-contributor count is below the cap. */
  lemma CanAnnotatorLabelSpec(labels: seq<Label>, annotator: string, maxAnnotators: int)
    ensures (exists l :: l in labels && annotator != "" && LabelUid(l) == annotator) ==> CanAnnotatorLabel(labels, annotator, maxAnnotators)
    ensures annotator !in UidSet(labels) ==>
      (CanAnnotatorLabel(labels, annotator, maxAnnotators) <==> |UidSet(labels)| < maxAnnotators)
  {
    AnnotatorsSpec(labels);
    AnnotatorsCount(labels);
  }

  lemma UidSetAppend(labels: seq<Label>, l: Label)
    ensures UidSet(labels + [l]) == UidSet(labels) + (if LabelUid(l) != "" then {LabelUid(l)} else {})
  {
    var s := labels + [l];
    forall x | x in UidSet(s) ensures x in UidSet(labels) || (LabelUid(l) != "" && x == LabelUid(l)) {
      var m :| m in s && LabelUid(m) != "" && LabelUid(m) == x;
      if m != l { assert m in labels; }
    }
    forall x | x in UidSet(labels) ensures x in UidSet(s) {
      var m :| m in labels && LabelUid(m) != "" && LabelUid(m) == x;
      assert m in s;
    }
    if LabelUid(l) != "" {
      assert l in s;
      assert LabelUid(l) in UidSet(s);
    }
  }

  /** The gate keeps the cap: if every label is admitted by it, a request
      never gains more than maxAnnotators distinct contributors. */
  lemma CapPreserved(labels: seq<Label>, l: Label, maxAnnotators: int)
    requires |UidSet(labels)| <= maxAnnotators
    requires CanAnnotatorLabel(labels, LabelUid(l), maxAnnotators)
    ensures |UidSet(labels + [l])| <= maxAnnotators
  {
    AnnotatorsSpec(labels);
    AnnotatorsCount(labels);
    UidSetAppend(labels, l);
    var a := LabelUid(l);
    if a != "" && a in Annotators(labels) {
      assert a in UidSet(labels);
      assert UidSet(labels) + {a} == UidSet(labels);
    }
  }

  /** A label asks for review when its flag is truthy or its status says so. */
  predicate FlagsReview(l: Label)
  {
    l.needsReview || l.status == Some("needs_review")
  }

  /** {l.get("priority") for l in labels if l.get("priority")} */
  function Priorities(labels: seq<Label>): set<string>
  {
    set l | l in labels && Present(l.priority) :: l.priority.value
  }

  /** request_status. The call sites in scripts/labeler_app.py pass a second
      argument (REQUIRED_UNIQUE_FOR_COMPLETION) that this definition does not
      take; it is treated as ignored. */
  function RequestStatus(labels: seq<Label>): (r: string)
    ensures r in {"unlabeled", "needs_review", "conflict", "labeled"}
  {
    if labels == [] then "unlabeled"
    else if exists i | 0 <= i < |labels| :: FlagsReview(labels[i]) then "needs_review"
    else if |Priorities(labels)| > 1 then "conflict"
    else "labeled"
  }

  lemma TwoElements(s: set<string>, a: string, b: string)
    requires a in s && b in s && a != b
    ensures |s| > 1
  {
    assert {a, b} <= s;
    assert |{a, b}| == 2;
    SubsetCard({a, b}, s);
  }

  lemma SubsetCard(a: set<string>, b: set<string>)
    requires a <= b
    ensures |a| <= |b|
  {
    assert b == a + (b - a);
  }

  lemma MoreThanOne(s: set<string>)
    requires |s| > 1
    ensures exists a, b :: a in s && b in s && a != b
  {
    var a :| a in s;
    var rest := s - {a};
    assert |rest| > 0;
    var b :| b in rest;
  }

  /** The classifier as a first-match decision list, with the conflict case
      stated as two labels carrying different non-empty priorities. */
  lemma RequestStatusCases(labels: seq<Label>)
    ensures RequestStatus(labels) == "unlabeled" <==> labels == []
    ensures RequestStatus(labels) == "needs_review" <==> exists l :: l in labels && FlagsReview(l)
    ensures RequestStatus(labels) == "conflict" <==>
      (forall l :: l in labels ==> !FlagsReview(l)) &&
      exists l1, l2 :: l1 in labels && l2 in labels && Present(l1.priority) && Present(l2.priority) && l1.priority != l2.priority
    ensures RequestStatus(labels) == "labeled" <==>
      labels != [] && (forall l :: l in labels ==> !FlagsReview(l)) &&
      forall l1, l2 :: l1 in labels && l2 in labels && Present(l1.priority) && Present(l2.priority) ==> l1.priority == l2.priority
  {
    PrioritiesConflict(labels);
    if exists l :: l in labels && FlagsReview(l) {
      var l :| l in labels && FlagsReview(l);
      var i :| 0 <= i < |labels| && labels[i] == l;
    }
  }

  /** More than one distinct priority means two labels with different non-empty priorities. */
  lemma PrioritiesConflict(labels: seq<Label>)
    ensures |Priorities(labels)| > 1 <==>
      exists l1, l2 :: l1 in labels && l2 in labels && Present(l1.priority) && Present(l2.priority) && l1.priority != l2.priority
  {
    var ps := Priorities(labels);
    if exists l1, l2 :: l1 in labels && l2 in labels && Present(l1.priority) && Present(l2.priority) && l1.priority != l2.priority {
      var l1, l2 :| l1 in labels && l2 in labels && Present(l1.priority) && Present(l2.priority) && l1.priority != l2.priority;
      TwoElements(ps, l1.priority.value, l2.priority.value);
    }
    if |ps| > 1 {
      MoreThanOne(ps);
      var a, b :| a in ps && b in ps && a != b;
      var l1 :| l1 in labels && Present(l1.priority) && l1.priority.value == a;
      var l2 :| l2 in labels && Present(l2.priority) && l2.priority.value == b;
      assert l1.priority != l2.priority;
    }
  }

  /** Adding a label that asks for review makes the request need review,
      whatever labels it already had. */
  lemma NeedsReviewDominates(labels: seq<Label>, l: Label, k: nat)
    requires FlagsReview(l)
    requires k <= |labels|
    ensures RequestStatus(labels[..k] + [l] + labels[k..]) == "needs_review"
  {
    var s := labels[..k] + [l] + labels[k..];
    assert s[k] == l;
  }

  /** The labels of one annotator, in input order. */
  function Matching(labels: seq<Label>, annotator: string): seq<Label>
  {
    Filter(labels, (l: Label) => LabelUid(l) == annotator)
  }

  /** latest_label_for_annotator: the last of the annotator's labels in timestamp order. */
  function LatestLabelForAnnotator(labels: seq<Label>, annotator: string): (r: Option<Label>)
  {
    var matching := Matching(labels, annotator);
    if matching == [] then None
    else
      var sorted := SortLabels(matching);
      Some(sorted[|sorted| - 1])
  }

  lemma MatchingMembers(labels: seq<Label>, annotator: string)
    ensures forall l :: l in Matching(labels, annotator) <==> l in labels && LabelUid(l) == annotator
  {
    forall l ensures l in Matching(labels, annotator) <==> l in labels && LabelUid(l) == annotator {
      FilterMembership(labels, (m: Label) => LabelUid(m) == annotator, l);
    }
  }

  /** The last of a timestamp-sorted sequence has the greatest key. */
  lemma LastIsLatest(s: seq<Label>)
    requires s != []
    ensures forall l :: l in s ==> StampKey(l) <= StampKey(SortLabels(s)[|s| - 1])
    ensures SortLabels(s)[|s| - 1] in s
  {
    var sorted := SortLabels(s);
    var r := sorted[|s| - 1];
    SortLabelsOrdered(s);
    assert r in multiset(s);
    forall l | l in s ensures StampKey(l) <= StampKey(r) {
      assert l in multiset(sorted);
      var i :| 0 <= i < |s| && sorted[i] == l;
    }
  }

  /** None iff the annotator wrote none of the labels; otherwise one of their
      labels with the greatest timestamp key, and among those with that key
      the last in input order. */
  lemma LatestLabelForAnnotatorSpec(labels: seq<Label>, annotator: string)
    ensures LatestLabelForAnnotator(labels, annotator).None? <==> forall l :: l in labels ==> LabelUid(l) != annotator
    ensures LatestLabelForAnnotator(labels, annotator).Some? ==>
      var r := LatestLabelForAnnotator(labels, annotator).value;
      var ties := Class(Matching(labels, annotator), StampLe, r);
      r in labels && LabelUid(r) == annotator
      && (forall l :: l in labels && LabelUid(l) == annotator ==> StampKey(l) <= StampKey(r))
      && ties != [] && ties[|ties| - 1] == r
  {
    var matching := Matching(labels, annotator);
    MatchingMembers(labels, annotator);
    if matching != [] {
      var sorted := SortLabels(matching);
      var r := sorted[|sorted| - 1];
      LastIsLatest(matching);
      SortLabelsStable(matching, r);
      ClassLast(sorted, r);
    } else {
      assert forall l :: l in labels ==> LabelUid(l) != annotator;
    }
  }

  /** The class of the last element, in a sequence, ends with that element. */
  lemma ClassLast(s: seq<Label>, r: Label)
    requires s != [] && s[|s| - 1] == r
    ensures Class(s, StampLe, r) != [] && Class(s, StampLe, r)[|Class(s, StampLe, r)| - 1] == r
  {
    var init := s[..|s| - 1];
    assert s == init + [r];
    ClassAppend(init, [r], StampLe, r);
    assert Class([r], StampLe, r) == [r];
  }

  /** verify_password: an account without a stored hash accepts any password;
      otherwise the password's hash must equal the stored one. */
  function VerifyPassword(password: string, storedHash: string, hash: string -> string): (r: bool)
    ensures storedHash == "" ==> r
    ensures storedHash != "" ==> (r <==> hash(password) == storedHash)
  {
    if storedHash == "" then true else hash(password) == storedHash
  }

  /** A password always verifies against its own hash. */
  lemma VerifyOwnHash(password: string, hash: string -> string)
    ensures VerifyPassword(password, hash(password), hash)
  {
  }
}
