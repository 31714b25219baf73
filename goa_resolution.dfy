/** The responder-status buckets of the resolution-time analysis, and the order
    in which the summary lists them. */
module GoaResolution {
  import opened PyData
  import opened Strings
  import opened Ordering

  /** The status buckets. */
  datatype Bucket = CaseResolved | UnableToLocate | OtherClosedNotes | Open | Unknown

  /** The name each bucket is reported under. */
  function Label(b: Bucket): string
  {
    match b
    case CaseResolved => "Case Resolved"
    case UnableToLocate => "Unable to Locate"
    case OtherClosedNotes => "Other Closed Notes"
    case Open => "Open"
    case Unknown => "Unknown"
  }

  /** STATUS_ORDER: the buckets in report order. */
  const BucketOrder: seq<Bucket> := [CaseResolved, UnableToLocate, OtherClosedNotes, Open, Unknown]

  const StatusOrder: seq<string> := ["Case Resolved", "Unable to Locate", "Other Closed Notes", "Open", "Unknown"]

  /** STATUS_ORDER lists every bucket once, by its name. */
  lemma StatusOrderLabels()
    ensures |StatusOrder| == |BucketOrder| == 5
    ensures forall i :: 0 <= i < 5 ==> StatusOrder[i] == Label(BucketOrder[i])
    ensures forall b: Bucket :: b in BucketOrder
    ensures NoDup(StatusOrder)
  {
    forall b: Bucket ensures b in BucketOrder {
      match b
      case CaseResolved => assert BucketOrder[0] == b;
      case UnableToLocate => assert BucketOrder[1] == b;
      case OtherClosedNotes => assert BucketOrder[2] == b;
      case Open => assert BucketOrder[3] == b;
      case Unknown => assert BucketOrder[4] == b;
    }
    forall i, j | 0 <= i < j < 5 ensures StatusOrder[i] != StatusOrder[j] {
      LabelInjective(BucketOrder[i], BucketOrder[j]);
    }
  }

  /** Different buckets have different names. */
  lemma LabelInjective(a: Bucket, b: Bucket)
    requires a != b
    ensures Label(a) != Label(b)
  {
  }

  /** `s or ""` for an optional string. */
  function OrEmpty(s: Option<string>): string
  {
    if s.Some? then s.value else ""
  }

  /** The decision list shared by the scripts' bucket_status functions, on
      the lowercased status, the lowercased note and whether the note counts
      as empty. */
  function Decide(statusLower: string, noteLower: string, noteEmpty: bool): Bucket
  {
    if statusLower == "open" then Open
    else if noteEmpty then Unknown
    else if Contains(noteLower, "unable to locate") || Contains(noteLower, "goa") then UnableToLocate
    else if StartsWith(noteLower, "case resolved") then CaseResolved
    else OtherClosedNotes
  }

  /** This script's bucket_status strips and lowercases the status and note. */
  function Classify(status: Option<string>, note: Option<string>): Bucket
  {
    var statusLower := Lower(Strip(OrEmpty(status)));
    var noteLower := Lower(Strip(OrEmpty(note)));
    Decide(statusLower, noteLower, noteLower == "")
  }

  /** bucket_status: the name of the bucket, always one of STATUS_ORDER. */
  function BucketStatus(status: Option<string>, note: Option<string>): (r: string)
    ensures r in StatusOrder
  {
    var b := Classify(status, note);
    LabelListed(b);
    Label(b)
  }

  lemma LabelListed(b: Bucket)
    ensures Label(b) in StatusOrder
  {
  }

  /** The decision list, rule by rule: an open status wins whatever the note;
      then a blank note gives Unknown; then an "unable to locate" or "goa"
      mention gives Unable to Locate, before the "case resolved" prefix is
      looked at; anything else is Other Closed Notes. */
  lemma ClassifyRules(status: Option<string>, note: Option<string>)
    ensures var s := Lower(Strip(OrEmpty(status)));
      var n := Lower(Strip(OrEmpty(note)));
      var mention := Contains(n, "unable to locate") || Contains(n, "goa");
      var b := Classify(status, note);
      (b == Open <==> s == "open") &&
      (b == Unknown <==> s != "open" && IsBlank(OrEmpty(note))) &&
      (b == UnableToLocate <==> s != "open" && !IsBlank(OrEmpty(note)) && mention) &&
      (b == CaseResolved <==> s != "open" && !IsBlank(OrEmpty(note)) && !mention && StartsWith(n, "case resolved")) &&
      (b == OtherClosedNotes <==> s != "open" && !IsBlank(OrEmpty(note)) && !mention && !StartsWith(n, "case resolved"))
  {
    var n := Lower(Strip(OrEmpty(note)));
    DecideRules(Lower(Strip(OrEmpty(status))), n, n == "");
    StrippedBlank(OrEmpty(note));
  }

  /** The stripped, lowercased note is empty exactly when the note is blank. */
  lemma StrippedBlank(s: string)
    ensures Lower(Strip(s)) == "" <==> IsBlank(s)
  {
    StripEmptyIffBlank(s);
  }

  /** The decision list as five exclusive rules. */
  lemma DecideRules(s: string, n: string, e: bool)
    ensures var mention := Contains(n, "unable to locate") || Contains(n, "goa");
      var b := Decide(s, n, e);
      (b == Open <==> s == "open") &&
      (b == Unknown <==> s != "open" && e) &&
      (b == UnableToLocate <==> s != "open" && !e && mention) &&
      (b == CaseResolved <==> s != "open" && !e && !mention && StartsWith(n, "case resolved")) &&
      (b == OtherClosedNotes <==> s != "open" && !e && !mention && !StartsWith(n, "case resolved"))
  {
  }

  // ---------------------------------------------------------------- category order

  /** Sorting by str.lower. */
  predicate LowerLe(a: string, b: string)
  {
    LexLe(Lower(a), Lower(b))
  }

  lemma LowerLePreorder()
    ensures TotalPreorder(LowerLe)
  {
    forall a: string, b: string ensures LowerLe(a, b) || LowerLe(b, a) { LexLeTotal(Lower(a), Lower(b)); }
    forall a: string, b: string, c: string | LowerLe(a, b) && LowerLe(b, c) ensures LowerLe(a, c) {
      LexLeTrans(Lower(a), Lower(b), Lower(c));
    }
  }

  /** The buckets of `known` that are present, in that order. */
  function KnownPresent(present: seq<string>, known: seq<string>): seq<string>
  {
    Filter(known, InList(present))
  }

  function InList(xs: seq<string>): string -> bool
  {
    x => x in xs
  }

  function NotInList(xs: seq<string>): string -> bool
  {
    x => x !in xs
  }

  /** The other present buckets, in the order the set is iterated. */
  function OthersPresent(present: seq<string>, known: seq<string>): seq<string>
  {
    Filter(present, NotInList(known))
  }

  /** The known buckets first, then the others sorted by str.lower. */
  function KnownFirst(present: seq<string>, known: seq<string>): seq<string>
  {
    KnownPresent(present, known) + SortBy(OthersPresent(present, known), LowerLe)
  }

  /** compute_summary's category order: the present STATUS_ORDER buckets in
      that order, then the remaining buckets sorted by str.lower. The set of
      present buckets is given as a list in its iteration order. */
  function OrderedCategories(present: seq<string>): seq<string>
  {
    KnownFirst(present, StatusOrder)
  }

  /** The order is a permutation of the present buckets: the STATUS_ORDER
      ones first, in STATUS_ORDER's order, then the others sorted
      case-insensitively. */
  lemma OrderedCategoriesSpec(present: seq<string>)
    requires NoDup(present)
    ensures multiset(OrderedCategories(present)) == multiset(present)
    ensures NoDup(OrderedCategories(present))
    ensures var k := |KnownPresent(present, StatusOrder)|;
      IsSubseq(OrderedCategories(present)[..k], StatusOrder) &&
      (forall x :: x in OrderedCategories(present)[..k] <==> x in present && x in StatusOrder) &&
      (forall i :: k <= i < |OrderedCategories(present)| ==> OrderedCategories(present)[i] !in StatusOrder) &&
      SortedBy(OrderedCategories(present)[k..], LowerLe)
  {
    StatusOrderLabels();
    KnownFirstSpec(present, StatusOrder);
  }

  lemma KnownFirstSpec(present: seq<string>, known: seq<string>)
    requires NoDup(present) && NoDup(known)
    ensures multiset(KnownFirst(present, known)) == multiset(present)
    ensures NoDup(KnownFirst(present, known))
    ensures var k := |KnownPresent(present, known)|;
      IsSubseq(KnownFirst(present, known)[..k], known) &&
      (forall x :: x in KnownFirst(present, known)[..k] <==> x in present && x in known) &&
      (forall i :: k <= i < |KnownFirst(present, known)| ==> KnownFirst(present, known)[i] !in known) &&
      SortedBy(KnownFirst(present, known)[k..], LowerLe)
  {
    var a := KnownPresent(present, known);
    var b := OthersPresent(present, known);
    var r := KnownFirst(present, known);
    assert r[..|a|] == a;
    assert r[|a|..] == SortBy(b, LowerLe);
    KnownFirstPermutation(present, known);
    MultisetNoDup(r);
    FilterIsSubseq(known, InList(present));
    KnownPresentMembers(present, known);
    forall i | |a| <= i < |r| ensures r[i] !in known {
      assert r[i] == SortBy(b, LowerLe)[i - |a|];
      assert r[i] in multiset(SortBy(b, LowerLe));
      FilterMembership(present, NotInList(known), r[i]);
    }
    LowerLePreorder();
    SortBySorted(b, LowerLe);
  }

  lemma KnownPresentMembers(present: seq<string>, known: seq<string>)
    ensures forall x :: x in KnownPresent(present, known) <==> x in present && x in known
  {
    forall x ensures x in KnownPresent(present, known) <==> x in present && x in known {
      FilterMembership(known, InList(present), x);
    }
  }

  /** Each present bucket occurs once in the order. */
  lemma KnownFirstPermutation(present: seq<string>, known: seq<string>)
    requires NoDup(present) && NoDup(known)
    ensures multiset(KnownFirst(present, known)) == multiset(present)
    ensures forall x :: multiset(KnownFirst(present, known))[x] <= 1
  {
    var a := KnownPresent(present, known);
    var b := OthersPresent(present, known);
    var r := KnownFirst(present, known);
    assert multiset(r) == multiset(a) + multiset(SortBy(b, LowerLe));
    forall x ensures multiset(r)[x] == multiset(present)[x] {
      KnownFirstCount(present, known, x);
    }
    assert multiset(r) == multiset(present);
    NoDupMultiset(present);
  }

  /** A present bucket is counted once, among the known or among the others. */
  lemma KnownFirstCount(present: seq<string>, known: seq<string>, x: string)
    requires NoDup(present) && NoDup(known)
    ensures multiset(KnownPresent(present, known))[x] + multiset(OthersPresent(present, known))[x] ==
      multiset(present)[x]
  {
    var a := KnownPresent(present, known);
    var b := OthersPresent(present, known);
    FilterNoDup(known, InList(present));
    FilterNoDup(present, NotInList(known));
    NoDupMultiset(a);
    NoDupMultiset(b);
    NoDupMultiset(present);
    FilterMembership(known, InList(present), x);
    FilterMembership(present, NotInList(known), x);
  }
}
