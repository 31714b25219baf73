/** The small normalisers of scripts/labeler_app.py that turn stored values
    into the option the form shows: priority, GOA window, outcome and
    follow-up names, feature defaults taken from the record, the image list,
    the context score, the status badge and the note shown next to it. */
module LabelerDisplay {
  import opened PyData
  import opened Strings
  import opened Ordering

  // ---------------------------------------------------------------- priority

  const PriorityOptions: seq<string> := ["High", "Medium", "Low"]

  /** PRIORITY_STORAGE: the value written to the store for a shown option. */
  function PriorityStorage(option: string): string
  {
    Lower(option)
  }

  const StoredPriorities: seq<string> := ["high", "medium", "low"]

  /** PRIORITY_LEGACY_MAP */
  function LegacyPriority(key: string): Option<string>
  {
    if key == "p1" || key == "p2" then Some("High")
    else if key == "p3" then Some("Medium")
    else if key == "p4" then Some("Low")
    else None
  }

  predicate LowerLetters(w: string)
  {
    forall i :: 0 <= i < |w| ==> 'a' <= w[i] <= 'z'
  }

  lemma {:induction false} TitleAfterCasedRun(s: string)
    requires LowerLetters(Lower(s))
    ensures TitleAfter(s, true) == Lower(s)
  {
    if s != [] {
      assert Lower(s)[1..] == Lower(s[1..]);
      assert LowerChar(s[0]) == Lower(s)[0];
      TitleAfterCasedRun(s[1..]);
    }
  }

  /** A string that lower-cases to a word of lower-case letters title-cases
      to that word with a capital first letter. */
  lemma TitleOfWord(v: string, w: string)
    requires Lower(v) == w && w != [] && LowerLetters(w)
    ensures Title(v) == [UpperChar(w[0])] + w[1..]
  {
    assert LowerChar(v[0]) == w[0];
    assert IsCased(v[0]);
    LowerSlice(v, 1, |v|);
    assert Lower(v[1..]) == w[1..];
    TitleAfterCasedRun(v[1..]);
  }

  /** The three stored values, their letters and the option each title-cases to. */
  lemma StoredWord(w: string)
    requires w in StoredPriorities
    ensures w != [] && LowerLetters(w) && !IsSpace(w[0]) && !IsSpace(w[|w| - 1])
    ensures [UpperChar(w[0])] + w[1..] in PriorityOptions
  {
    if w == "high" {
      assert [UpperChar(w[0])] + w[1..] == "High";
    } else if w == "medium" {
      assert [UpperChar(w[0])] + w[1..] == "Medium";
    } else {
      assert [UpperChar(w[0])] + w[1..] == "Low";
    }
  }

  /** resolve_priority_label on the stripped text of a non-None value. */
  function ResolvePriorityText(valueStr: string): (r: string)
    ensures r in PriorityOptions
  {
    if valueStr != "" then
      var lowered := Lower(valueStr);
      if lowered in StoredPriorities then
        StoredWord(lowered);
        TitleOfWord(valueStr, lowered);
        Title(valueStr)
      else if LegacyPriority(lowered).Some? then LegacyPriority(lowered).value
      else "Medium"
    else "Medium"
  }

  /** resolve_priority_label: the option a stored priority value selects. */
  function ResolvePriorityLabel(v: Value): (r: string)
    ensures r in PriorityOptions
  {
    if v.VNone? then "Medium" else ResolvePriorityText(Strip(Str(v)))
  }

  lemma LowerOfLowerWord(s: string)
    requires forall i :: 0 <= i < |s| ==> !('A' <= s[i] <= 'Z')
    ensures Lower(s) == s
  {
  }

  lemma StripOfWord(s: string)
    requires s != [] && !IsSpace(s[0]) && !IsSpace(s[|s| - 1])
    ensures Strip(s) == s
  {
  }

  /** Each option's stored value, and the option it title-cases back to. */
  lemma OptionStorage(x: string)
    requires x in PriorityOptions
    ensures PriorityStorage(x) in StoredPriorities
    ensures [UpperChar(PriorityStorage(x)[0])] + PriorityStorage(x)[1..] == x
  {
    if x == "High" {
      assert PriorityStorage(x) == "high";
    } else if x == "Medium" {
      assert PriorityStorage(x) == "medium";
    } else {
      assert PriorityStorage(x) == "low";
    }
    CapitalWord(x);
  }

  /** A capital letter followed by lower-case letters is its lower-cased
      form with the first letter put back in upper case. */
  lemma CapitalWord(x: string)
    requires x != [] && 'A' <= x[0] <= 'Z'
    requires forall i :: 1 <= i < |x| ==> 'a' <= x[i] <= 'z'
    ensures [UpperChar(Lower(x)[0])] + Lower(x)[1..] == x
  {
    var y := [UpperChar(Lower(x)[0])] + Lower(x)[1..];
    assert forall i :: 0 <= i < |x| ==> y[i] == x[i];
  }

  /** Whatever its case and surrounding whitespace, a stored priority selects
      the option it was stored from; so resolving a stored option value gives
      the option back. */
  lemma ResolvePriorityRoundTrip(x: string, s: string)
    requires x in PriorityOptions
    requires Lower(Strip(s)) == PriorityStorage(x)
    ensures ResolvePriorityLabel(VStr(s)) == x
    ensures ResolvePriorityLabel(VStr(PriorityStorage(x))) == x
  {
    var w := PriorityStorage(x);
    OptionStorage(x);
    StoredWord(w);
    LowerOfLowerWord(w);
    StripOfWord(w);
    assert Strip(s) != "";
    TitleOfWord(Strip(s), w);
    TitleOfWord(w, w);
  }

  /** The legacy p1..p4 codes map to High, High, Medium and Low, whatever
      their case and surrounding whitespace. */
  lemma ResolvePriorityLegacy(s: string)
    requires LegacyPriority(Lower(Strip(s))).Some?
    ensures ResolvePriorityLabel(VStr(s)) == LegacyPriority(Lower(Strip(s))).value
  {
    var t := Strip(s);
    LegacyNotStored(Lower(t));
    assert t != "";
    assert ResolvePriorityLabel(VStr(s)) == ResolvePriorityText(t);
  }

  /** A legacy code is two characters long and is not a stored value. */
  lemma LegacyNotStored(low: string)
    requires LegacyPriority(low).Some?
    ensures |low| == 2 && low !in StoredPriorities
  {
    assert low == "p1" || low == "p2" || low == "p3" || low == "p4";
  }

  /** A missing value, or one that is neither a stored option nor a legacy
      code, selects Medium. */
  lemma ResolvePriorityDefault(v: Value)
    requires v != VNone ==> Lower(Strip(Str(v))) !in StoredPriorities && LegacyPriority(Lower(Strip(Str(v)))).None?
    ensures ResolvePriorityLabel(v) == "Medium"
  {
  }

  // ---------------------------------------------------------------- GOA window

  const GoaWindowOptions: seq<(string, string)> := [
    ("unknown", "Unsure"),
    ("respond_sub2h", "Respond within 2h to avoid GOA"),
    ("respond_2_6h", "Respond within 6h to avoid GOA"),
    ("respond_6_24h", "Respond within 24h to avoid GOA"),
    ("respond_over_24h", "Low GOA risk (>24h)")
  ]

  const GoaWindowValues: seq<string> := ["unknown", "respond_sub2h", "respond_2_6h", "respond_6_24h", "respond_over_24h"]

  lemma GoaWindowValuesAreKeys()
    ensures |GoaWindowValues| == |GoaWindowOptions|
    ensures forall i :: 0 <= i < |GoaWindowOptions| ==> GoaWindowOptions[i].0 == GoaWindowValues[i]
  {
  }

  /** GOA_WINDOW_LABELS.get(key) */
  function GoaWindowLabelOf(key: string): (r: Option<string>)
    ensures r.Some? <==> key in GoaWindowValues
  {
    if key == "unknown" then Some("Unsure")
    else if key == "respond_sub2h" then Some("Respond within 2h to avoid GOA")
    else if key == "respond_2_6h" then Some("Respond within 6h to avoid GOA")
    else if key == "respond_6_24h" then Some("Respond within 24h to avoid GOA")
    else if key == "respond_over_24h" then Some("Low GOA risk (>24h)")
    else None
  }

  /** resolve_goa_window (the same code appears in scripts/labeler_app.py and
      scripts/export_labels.py): the stored window when it names a known
      bucket after strip and lower-casing, else "unknown". */
  function ResolveGoaWindow(features: Value): (r: string)
    ensures r in GoaWindowValues
  {
    var raw := if features.VDict? then Get(features.entries, "goa_window") else VNone;
    if raw.VStr? && Lower(Strip(raw.s)) in GoaWindowValues then Lower(Strip(raw.s))
    else "unknown"
  }

  /** A word with no outer whitespace and no upper-case letter is its own normal form. */
  lemma CanonicalWord(s: string)
    requires s != [] && !IsSpace(s[0]) && !IsSpace(s[|s| - 1])
    requires forall i :: 0 <= i < |s| ==> !('A' <= s[i] <= 'Z')
    ensures Lower(Strip(s)) == s
  {
    assert Strip(s) == s;
    assert Lower(s) == s;
  }

  lemma GoaValueCanonical(v: string)
    requires v in GoaWindowValues
    ensures Lower(Strip(v)) == v
  {
    if v == "unknown" { CanonicalWord("unknown"); }
    else if v == "respond_sub2h" { CanonicalWord("respond_sub2h"); }
    else if v == "respond_2_6h" { CanonicalWord("respond_2_6h"); }
    else if v == "respond_6_24h" { CanonicalWord("respond_6_24h"); }
    else { assert v == "respond_over_24h"; CanonicalWord("respond_over_24h"); }
  }

  /** Resolving is idempotent: storing the resolved window and resolving again
      gives the same bucket. */
  lemma ResolveGoaWindowIdempotent(features: Value)
    ensures ResolveGoaWindow(VDict([("goa_window", VStr(ResolveGoaWindow(features)))])) == ResolveGoaWindow(features)
  {
    ResolveStored(ResolveGoaWindow(features));
  }

  /** A stored known bucket resolves to itself. */
  lemma ResolveStored(v: string)
    requires v in GoaWindowValues
    ensures ResolveGoaWindow(VDict([("goa_window", VStr(v))])) == v
  {
    var f := VDict([("goa_window", VStr(v))]);
    assert Get(f.entries, "goa_window") == VStr(v);
    ResolveString(f, v);
    GoaValueCanonical(v);
  }

  /** A stored string resolves to its normal form when that is a known bucket. */
  lemma ResolveString(features: Value, s: string)
    requires features.VDict? && Get(features.entries, "goa_window") == VStr(s)
    ensures ResolveGoaWindow(features) == if Lower(Strip(s)) in GoaWindowValues then Lower(Strip(s)) else "unknown"
  {
  }

  /** Anything but a dictionary holding a string window resolves to "unknown". */
  lemma ResolveGoaWindowDefault(features: Value)
    ensures !features.VDict? ==> ResolveGoaWindow(features) == "unknown"
    ensures features.VDict? && !Get(features.entries, "goa_window").VStr? ==> ResolveGoaWindow(features) == "unknown"
  {
  }

  /** goa_window_label: the label of a known bucket, else the normalised text
      with underscores turned into spaces, title-cased. */
  function GoaWindowLabel(value: string): (r: string)
    ensures var n := Lower(Strip(value)); n in GoaWindowValues ==> Some(r) == GoaWindowLabelOf(n)
  {
    var normalized := Lower(Strip(value));
    var known := GoaWindowLabelOf(normalized);
    if known.Some? then known.value else Title(ReplaceChar(normalized, '_', ' '))
  }

  /** Every resolved window has one of the fixed labels. */
  lemma GoaLabelOfResolved(features: Value)
    ensures GoaWindowLabelOf(ResolveGoaWindow(features)).Some?
    ensures Some(GoaWindowLabel(ResolveGoaWindow(features))) == GoaWindowLabelOf(ResolveGoaWindow(features))
  {
    GoaValueCanonical(ResolveGoaWindow(features));
  }

  // ---------------------------------------------------------------- outcome and follow-up names

  const OutcomeOptions: seq<(string, string)> := [
    ("", "Select outcome alignment"),
    ("service_delivered", "Service delivered / resolved"),
    ("client_declined", "Client declined or not interested"),
    ("unable_to_locate", "Unable to locate client"),
    ("other", "Other outcome")
  ]

  const FollowUpOptions: seq<(string, string)> := [
    ("mental_health", "Mental health support"),
    ("shelter", "Shelter / placement"),
    ("case_management", "Case management"),
    ("medical", "Medical support"),
    ("sanitation", "Sanitation / cleanup"),
    ("legal", "Legal or documentation"),
    ("other", "Other resource")
  ]

  /** The label of the first option whose key is `key`. */
  function LookupOption(options: seq<(string, string)>, key: string): (r: Option<string>)
    ensures r.None? <==> forall i :: 0 <= i < |options| ==> options[i].0 != key
  {
    if options == [] then None
    else if options[0].0 == key then Some(options[0].1)
    else LookupOption(options[1..], key)
  }

  /** "—" followed by the text shown for a missing value. */
  const Dash: string := "\U{2014}"

  /** outcome_display: the option label of a known outcome, else the value
      with underscores turned into spaces, title-cased; "—" when empty. */
  function OutcomeDisplay(value: Option<string>): (r: string)
    ensures value.None? || value == Some("") ==> r == Dash
  {
    if value.None? || value.value == "" then Dash
    else
      var known := LookupOption(OutcomeOptions, value.value);
      if known.Some? then known.value else Title(ReplaceChar(value.value, '_', ' '))
  }

  /** Each known outcome shows its label. */
  lemma OutcomeDisplayKnown(i: int)
    requires 1 <= i < |OutcomeOptions|
    ensures OutcomeDisplay(Some(OutcomeOptions[i].0)) == OutcomeOptions[i].1
  {
    var key := OutcomeOptions[i].0;
    assert forall j :: 0 <= j < i ==> OutcomeOptions[j].0 != key by {
      if i == 1 { } else if i == 2 { } else if i == 3 { } else { }
    }
    LookupFirst(OutcomeOptions, i, key);
  }

  /** An unknown outcome shows as text of the same length with no underscore. */
  lemma OutcomeDisplayUnknown(value: string)
    requires value != "" && LookupOption(OutcomeOptions, value).None?
    ensures |OutcomeDisplay(Some(value))| == |value| && '_' !in OutcomeDisplay(Some(value))
  {
    TitleNoUnderscore(value);
  }

  lemma {:induction false} TitleAfterNoUnderscore(s: string, prev: bool)
    requires '_' !in s
    ensures '_' !in TitleAfter(s, prev)
  {
    if s != [] {
      assert s[0] != '_' && '_' !in s[1..];
      TitleAfterNoUnderscore(s[1..], IsCased(s[0]));
    }
  }

  lemma TitleNoUnderscore(s: string)
    ensures '_' !in ReplaceChar(s, '_', ' ') && '_' !in Title(ReplaceChar(s, '_', ' '))
  {
    var t := ReplaceChar(s, '_', ' ');
    assert forall i :: 0 <= i < |t| ==> t[i] != '_';
    TitleAfterNoUnderscore(t, false);
  }

  /** The text shown for one follow-up item. */
  function FollowUpLabel(item: Value): string
  {
    if item.VStr? && LookupOption(FollowUpOptions, item.s).Some? then LookupOption(FollowUpOptions, item.s).value
    else Str(item)
  }

  function FollowUpLabels(values: seq<Value>): (r: seq<string>)
    ensures |r| == |values|
    ensures forall i :: 0 <= i < |values| ==> r[i] == FollowUpLabel(values[i])
  {
    if values == [] then [] else [FollowUpLabel(values[0])] + FollowUpLabels(values[1..])
  }

  /** follow_up_display: each item's option label (or its text), joined with ", ". */
  method FollowUpDisplay(values: Option<seq<Value>>) returns (r: string)
    ensures values.None? || values.value == [] ==> r == Dash
    ensures values.Some? && values.value != [] ==> r == Join(", ", FollowUpLabels(values.value))
  {
    if values.None? || values.value == [] {
      return Dash;
    }
    var items := values.value;
    var labels: seq<string> := [];
    var i := 0;
    while i < |items|
      invariant 0 <= i <= |items|
      invariant labels == FollowUpLabels(items[..i])
    {
      var item := items[i];
      var found := false;
      var k := 0;
      while k < |FollowUpOptions| && !found
        invariant 0 <= k <= |FollowUpOptions|
        invariant !found ==> forall j :: 0 <= j < k ==> !(item.VStr? && FollowUpOptions[j].0 == item.s)
        invariant found ==> labels == FollowUpLabels(items[..i + 1])
        invariant !found ==> labels == FollowUpLabels(items[..i])
      {
        if item.VStr? && FollowUpOptions[k].0 == item.s {
          labels := labels + [FollowUpOptions[k].1];
          found := true;
          LookupFirst(FollowUpOptions, k, item.s);
          assert items[..i + 1] == items[..i] + [item];
          FollowUpLabelsAppend(items[..i], item);
        }
        k := k + 1;
      }
      if !found {
        labels := labels + [Str(item)];
        assert items[..i + 1] == items[..i] + [item];
        FollowUpLabelsAppend(items[..i], item);
      }
      i := i + 1;
    }
    assert items[..|items|] == items;
    r := Join(", ", labels);
  }

  lemma FollowUpLabelsAppend(values: seq<Value>, item: Value)
    ensures FollowUpLabels(values + [item]) == FollowUpLabels(values) + [FollowUpLabel(item)]
  {
  }

  /** The lookup finds the first option with the key. */
  lemma {:induction false} LookupFirst(options: seq<(string, string)>, k: int, key: string)
    requires 0 <= k < |options| && options[k].0 == key
    requires forall j :: 0 <= j < k ==> options[j].0 != key
    ensures LookupOption(options, key) == Some(options[k].1)
  {
    if k > 0 {
      assert options[0].0 != key;
      LookupFirst(options[1..], k - 1, key);
    }
  }

  /** A known follow-up key shows its label; anything else shows as str(item). */
  lemma FollowUpLabelSpec(item: Value)
    ensures forall i :: 0 <= i < |FollowUpOptions| ==> FollowUpLabel(VStr(FollowUpOptions[i].0)) == FollowUpOptions[i].1
    ensures !(item.VStr? && exists i :: 0 <= i < |FollowUpOptions| && FollowUpOptions[i].0 == item.s) ==> FollowUpLabel(item) == Str(item)
  {
    forall i | 0 <= i < |FollowUpOptions|
      ensures FollowUpLabel(VStr(FollowUpOptions[i].0)) == FollowUpOptions[i].1
    {
      FollowUpKeysDistinct();
      LookupOptionAt(FollowUpOptions, i);
    }
  }

  /** The follow-up keys are distinct. */
  lemma FollowUpKeysDistinct()
    ensures forall i, j :: 0 <= j < i < |FollowUpOptions| ==> FollowUpOptions[j].0 != FollowUpOptions[i].0
  {
    forall i, j | 0 <= j < i < |FollowUpOptions| ensures FollowUpOptions[j].0 != FollowUpOptions[i].0 {
      var a, b := FollowUpOptions[j].0, FollowUpOptions[i].0;
      assert a[0] != b[0] || |a| != |b|;
    }
  }

  /** An option whose key no earlier option has is the one looked up. */
  lemma {:induction false} LookupOptionAt(options: seq<(string, string)>, i: int)
    requires 0 <= i < |options|
    requires forall j :: 0 <= j < i ==> options[j].0 != options[i].0
    ensures LookupOption(options, options[i].0) == Some(options[i].1)
    decreases i
  {
    if i > 0 {
      LookupOptionAt(options[1..], i - 1);
    }
  }

  // ---------------------------------------------------------------- feature defaults

  /** bool_default: None stays None, anything else becomes its truth value. */
  function BoolDefault(v: Value): Option<bool>
  {
    if v.VNone? then None else Some(Truthy(v))
  }

  /** Python's `a or b` on Optional[bool]. */
  function OrBool(a: Option<bool>, b: Option<bool>): Option<bool>
  {
    if a == Some(true) then a else b
  }

  const NumPeopleBins: seq<string> := ["0", "1", "2-3", "4-5", "6+"]
  const SizeFeetBins: seq<string> := ["0", "1-20", "21-80", "81-150", "150+"]

  /** Index into NumPeopleBins of the bin holding x. */
  function NumPeopleBinIndex(x: real): (k: nat)
    ensures k < |NumPeopleBins|
  {
    if x <= 0.0 then 0 else if x <= 1.0 then 1 else if x <= 3.0 then 2 else if x <= 5.0 then 3 else 4
  }

  function SizeFeetBinIndex(x: real): (k: nat)
    ensures k < |SizeFeetBins|
  {
    if x <= 0.0 then 0 else if x <= 20.0 then 1 else if x <= 80.0 then 2 else if x <= 150.0 then 3 else 4
  }

  /** The bins are ordered: a larger count never falls in an earlier bin. */
  lemma BinsMonotone(x: real, y: real)
    requires x <= y
    ensures NumPeopleBinIndex(x) <= NumPeopleBinIndex(y)
    ensures SizeFeetBinIndex(x) <= SizeFeetBinIndex(y)
  {
  }

  /** int(x) on a number: truncation toward zero. */
  function Trunc(x: real): int
  {
    if x >= 0.0 then x.Floor else -((-x).Floor)
  }

  /** The tents_count default: max(int(v), 0) for a number; the bool case
      below it can never be reached, since a bool is already a number. */
  function TentsDefault(v: Value): Option<Value>
  {
    if IsNumber(v) then
      var t := Trunc(NumberValue(v));
      Some(VInt(if t > 0 then t else 0))
    else
      match v
      case VBool(b) => Some(VInt(if b then 1 else 0))
      case _ => None
  }

  /** The unreachable bool branch would give the same count as the number branch. */
  lemma TentsDefaultOfBool(b: bool)
    ensures TentsDefault(VBool(b)) == Some(VInt(if b then 1 else 0))
  {
  }

  /** No entry holds None. */
  predicate NoNoneValues(d: Dict)
  {
    forall i :: 0 <= i < |d| ==> d[i].1 != VNone
  }

  function OptBool(b: Option<bool>): (r: Option<Value>)
    ensures r != Some(VNone)
    ensures r.Some? <==> b.Some?
  {
    if b.Some? then Some(VBool(b.value)) else None
  }

  /** The value to store for an optional default: None when there is none. */
  function OrNone(v: Option<Value>): Value
  {
    if v.Some? then v.value else VNone
  }

  /** {k: v for k, v in candidates.items() if v is not None} */
  function DropNones(ps: seq<(string, Option<Value>)>): (r: Dict)
    ensures (forall i :: 0 <= i < |ps| ==> ps[i].1 != Some(VNone)) ==> NoNoneValues(r)
    ensures forall j :: 0 <= j < |r| ==> exists i :: 0 <= i < |ps| && ps[i] == (r[j].0, Some(r[j].1))
  {
    if ps == [] then []
    else
      var rest := DropNones(ps[1..]);
      var h := if ps[0].1.Some? then [(ps[0].0, ps[0].1.value)] else [];
      forall j | 0 <= j < |rest| ensures exists i :: 0 <= i < |ps| && ps[i] == (rest[j].0, Some(rest[j].1)) {
        var i :| 0 <= i < |ps[1..]| && ps[1..][i] == (rest[j].0, Some(rest[j].1));
        assert ps[i + 1] == ps[1..][i];
      }
      assert forall j :: 0 <= j < |h + rest| ==> (h + rest)[j] == if j < |h| then h[j] else rest[j - |h|];
      h + rest
  }

  /** A key that occurs once among the candidates reads back as its candidate value. */
  lemma {:induction false} GetDropNones(ps: seq<(string, Option<Value>)>, i: int)
    requires 0 <= i < |ps|
    requires forall j :: 0 <= j < |ps| && j != i ==> ps[j].0 != ps[i].0
    ensures Get(DropNones(ps), ps[i].0) == OrNone(ps[i].1)
  {
    var rest := DropNones(ps[1..]);
    if ps[0].1.Some? {
      GetCons((ps[0].0, ps[0].1.value), rest, ps[i].0);
    } else {
      assert DropNones(ps) == rest;
    }
    if i == 0 {
      GetAbsent(ps[1..], ps[0].0);
    } else {
      GetDropNones(ps[1..], i - 1);
    }
  }

  lemma {:induction false} GetAbsent(ps: seq<(string, Option<Value>)>, k: string)
    requires forall j :: 0 <= j < |ps| ==> ps[j].0 != k
    ensures Get(DropNones(ps), k) == VNone
  {
    if ps != [] {
      GetAbsent(ps[1..], k);
      if ps[0].1.Some? {
        GetCons((ps[0].0, ps[0].1.value), DropNones(ps[1..]), k);
      } else {
        assert DropNones(ps) == DropNones(ps[1..]);
      }
    }
  }

  const FeatureDefaultKeys: seq<string> := [
    "lying_face_down", "safety_issue", "drugs", "blocking", "on_ramp", "propane_or_flame",
    "children_present", "wheelchair", "num_people_bin", "size_feet_bin", "tents_count"]

  /** The feature keys are distinct. */
  lemma FeatureKeysDistinct()
    ensures NoDup(FeatureDefaultKeys)
  {
  }

  /** The candidate default values of record_feature_defaults, one per key of
      FeatureDefaultKeys, None for a value that is left out. */
  function FeatureValues(record: Dict): (vs: seq<Option<Value>>)
    ensures |vs| == |FeatureDefaultKeys|
    ensures forall i :: 0 <= i < |vs| ==> vs[i] != Some(VNone)
  {
    var np := Get(record, "tag_num_people");
    var sf := Get(record, "tag_size_feet");
    [Some(VBool(Get(record, "tag_lying_face_down") == VBool(true))),
     Some(VBool(Get(record, "tag_safety_issue") == VBool(true))),
     Some(VBool(Get(record, "tag_drugs") == VBool(true))),
     OptBool(BoolDefault(Get(record, "kw_blocking"))),
     OptBool(BoolDefault(Get(record, "kw_onramp"))),
     OptBool(OrBool(BoolDefault(Get(record, "kw_propane")), BoolDefault(Get(record, "kw_fire")))),
     OptBool(BoolDefault(Get(record, "kw_children"))),
     OptBool(BoolDefault(Get(record, "kw_wheelchair"))),
     if IsNumber(np) then Some(VStr(NumPeopleBins[NumPeopleBinIndex(NumberValue(np))])) else None,
     if IsNumber(sf) then Some(VStr(SizeFeetBins[SizeFeetBinIndex(NumberValue(sf))])) else None,
     TentsDefault(Get(record, "tag_tents_present"))]
  }

  /** The candidate defaults, in the source's key order. */
  function FeatureCandidates(record: Dict): (ps: seq<(string, Option<Value>)>)
    ensures |ps| == |FeatureDefaultKeys|
    ensures forall i :: 0 <= i < |ps| ==> ps[i] == (FeatureDefaultKeys[i], FeatureValues(record)[i])
  {
    var vs := FeatureValues(record);
    seq(|FeatureDefaultKeys|, i requires 0 <= i < |FeatureDefaultKeys| => (FeatureDefaultKeys[i], vs[i]))
  }

  /** record_feature_defaults: the defaults dictionary with the None values dropped. */
  function RecordFeatureDefaults(record: Dict): Dict
  {
    DropNones(FeatureCandidates(record))
  }

  /** The defaults hold no None and only feature keys. */
  lemma RecordFeatureDefaultsShape(record: Dict)
    ensures NoNoneValues(RecordFeatureDefaults(record))
    ensures forall j :: 0 <= j < |RecordFeatureDefaults(record)| ==> RecordFeatureDefaults(record)[j].0 in FeatureDefaultKeys
  {
    var ps := FeatureCandidates(record);
    var r := DropNones(ps);
    forall j | 0 <= j < |r| ensures r[j].0 in FeatureDefaultKeys {
      var i :| 0 <= i < |ps| && ps[i] == (r[j].0, Some(r[j].1));
      assert ps[i].0 == FeatureDefaultKeys[i];
    }
  }

  /** Each feature key reads back as its candidate value, None standing for a dropped one. */
  lemma RecordFeatureDefaultsGet(record: Dict, i: int)
    requires 0 <= i < |FeatureDefaultKeys|
    ensures Get(RecordFeatureDefaults(record), FeatureDefaultKeys[i]) == OrNone(FeatureValues(record)[i])
  {
    FeatureKeysDistinct();
    GetDropNones(FeatureCandidates(record), i);
  }

  /** The three tag flags are always there, True only for a tag that is exactly
      True; a keyword flag is dropped exactly when its keyword is None and
      otherwise is the keyword's truth value; the propane flag is True when
      either the propane or the fire keyword is truthy. */
  lemma RecordFeatureDefaultsFlags(record: Dict)
    ensures Get(RecordFeatureDefaults(record), "lying_face_down") == VBool(Get(record, "tag_lying_face_down") == VBool(true))
    ensures Get(RecordFeatureDefaults(record), "blocking") == VNone <==> Get(record, "kw_blocking") == VNone
    ensures Get(record, "kw_blocking") != VNone ==> Get(RecordFeatureDefaults(record), "blocking") == VBool(Truthy(Get(record, "kw_blocking")))
    ensures Truthy(Get(record, "kw_propane")) || Truthy(Get(record, "kw_fire")) ==> Get(RecordFeatureDefaults(record), "propane_or_flame") == VBool(true)
  {
    LyingDefault(record);
    BlockingDefault(record);
    PropaneDefault(record);
  }

  lemma LyingDefault(record: Dict)
    ensures Get(RecordFeatureDefaults(record), "lying_face_down") == VBool(Get(record, "tag_lying_face_down") == VBool(true))
  {
    RecordFeatureDefaultsGet(record, 0);
    assert FeatureDefaultKeys[0] == "lying_face_down";
    assert FeatureValues(record)[0] == Some(VBool(Get(record, "tag_lying_face_down") == VBool(true)));
  }

  lemma PropaneDefault(record: Dict)
    ensures Get(RecordFeatureDefaults(record), "propane_or_flame") ==
      OrNone(OptBool(OrBool(BoolDefault(Get(record, "kw_propane")), BoolDefault(Get(record, "kw_fire")))))
  {
    RecordFeatureDefaultsGet(record, 5);
    assert FeatureDefaultKeys[5] == "propane_or_flame";
    assert FeatureValues(record)[5] == OptBool(OrBool(BoolDefault(Get(record, "kw_propane")), BoolDefault(Get(record, "kw_fire"))));
  }

  /** The blocking flag is dropped exactly when kw_blocking is None. */
  lemma BlockingDefault(record: Dict)
    ensures Get(RecordFeatureDefaults(record), "blocking") == OrNone(OptBool(BoolDefault(Get(record, "kw_blocking"))))
  {
    RecordFeatureDefaultsGet(record, 3);
    assert FeatureDefaultKeys[3] == "blocking";
    assert FeatureValues(record)[3] == OptBool(BoolDefault(Get(record, "kw_blocking")));
  }

  /** A bin is there exactly when the record's count is a number, and the tent
      count is never negative. */
  lemma RecordFeatureDefaultsBins(record: Dict)
    ensures Get(RecordFeatureDefaults(record), "num_people_bin") != VNone <==> IsNumber(Get(record, "tag_num_people"))
    ensures Get(RecordFeatureDefaults(record), "size_feet_bin") != VNone <==> IsNumber(Get(record, "tag_size_feet"))
    ensures Get(RecordFeatureDefaults(record), "tents_count") != VNone <==> IsNumber(Get(record, "tag_tents_present"))
    ensures IsNumber(Get(record, "tag_tents_present")) ==> Get(RecordFeatureDefaults(record), "tents_count").VInt? && Get(RecordFeatureDefaults(record), "tents_count").i >= 0
  {
    RecordFeatureDefaultsGet(record, 8);
    RecordFeatureDefaultsGet(record, 9);
    RecordFeatureDefaultsGet(record, 10);
  }

  // ---------------------------------------------------------------- images

  /** `row.get(k) or []` */
  function FieldOrEmpty(row: Dict, k: string): Value
  {
    Or(Get(row, k), VList([]))
  }

  /** `xs[idx] if idx < len(xs) else None` */
  function AtOrNone(xs: Value, idx: nat): Result<Value>
  {
    match Len(xs)
    case Failure(e) => Failure(e)
    case Success(n) => if idx < n then Index(xs, idx) else Success(VNone)
  }

  /** The local path of image idx: the stored path when it is truthy and
      `localPath` (Path(p).exists() and str(p)) finds it on disk. */
  function LocalPathAt(paths: Value, idx: nat, localPath: string -> Option<string>): Result<Value>
  {
    match Len(paths)
    case Failure(e) => Failure(e)
    case Success(n) =>
      if idx < n then
        match Index(paths, idx)
        case Failure(e) => Failure(e)
        case Success(p) =>
          if !Truthy(p) then Success(VNone)
          else if !p.VStr? then Failure("TypeError")
          else
            match localPath(p.s)
            case None => Success(VNone)
            case Some(q) => Success(VStr(q))
      else Success(VNone)
  }

  /** The entry resolve_images builds for image idx. */
  function ImageEntry(row: Dict, url: Value, idx: nat, localPath: string -> Option<string>): Result<Dict>
  {
    match LocalPathAt(FieldOrEmpty(row, "image_paths"), idx, localPath)
    case Failure(e) => Failure(e)
    case Success(lp) =>
      match AtOrNone(FieldOrEmpty(row, "image_checksums"), idx)
      case Failure(e) => Failure(e)
      case Success(checksum) =>
        match AtOrNone(FieldOrEmpty(row, "image_fetch_status"), idx)
        case Failure(e) => Failure(e)
        case Success(status) =>
          Success([("url", url), ("local_path", lp), ("checksum", checksum), ("status", status)])
  }

  /** The entries for the first n urls, or the first exception raised. */
  function ImageEntries(row: Dict, urls: seq<Value>, n: nat, localPath: string -> Option<string>): (r: Result<seq<Dict>>)
    requires n <= |urls|
    ensures r.Success? ==> |r.value| == n
  {
    if n == 0 then Success([])
    else
      match ImageEntries(row, urls, n - 1, localPath)
      case Failure(e) => Failure(e)
      case Success(done) =>
        match ImageEntry(row, urls[n - 1], n - 1, localPath)
        case Failure(e) => Failure(e)
        case Success(entry) => Success(done + [entry])
  }

  /** Once an entry raises, every longer prefix raises the same exception. */
  lemma {:induction false} ImageEntriesFailurePersists(row: Dict, urls: seq<Value>, n: nat, m: nat, localPath: string -> Option<string>)
    requires n <= m <= |urls|
    requires ImageEntries(row, urls, n, localPath).Failure?
    ensures ImageEntries(row, urls, m, localPath) == ImageEntries(row, urls, n, localPath)
    decreases m - n
  {
    if n < m {
      ImageEntriesFailurePersists(row, urls, n, m - 1, localPath);
    }
  }

  /** What resolve_images returns for a row. */
  function ResolvedImages(row: Dict, localPath: string -> Option<string>): Result<seq<Dict>>
  {
    match Iterate(FieldOrEmpty(row, "image_urls"))
    case Failure(e) => Failure(e)
    case Success(urls) => ImageEntries(row, urls, |urls|, localPath)
  }

  /** resolve_images: one entry per url, in order. */
  method ResolveImages(row: Dict, localPath: string -> Option<string>) returns (r: Result<seq<Dict>>)
    ensures r == ResolvedImages(row, localPath)
  {
    var it := Iterate(FieldOrEmpty(row, "image_urls"));
    if it.Failure? {
      return Failure(it.error);
    }
    var urls := it.value;
    var resolved: seq<Dict> := [];
    var idx := 0;
    while idx < |urls|
      invariant 0 <= idx <= |urls|
      invariant ImageEntries(row, urls, idx, localPath) == Success(resolved)
    {
      var entry := ImageEntry(row, urls[idx], idx, localPath);
      if entry.Failure? {
        ImageEntriesFailurePersists(row, urls, idx + 1, |urls|, localPath);
        return Failure(entry.error);
      }
      resolved := resolved + [entry.value];
      idx := idx + 1;
    }
    return Success(resolved);
  }

  /** Each successful entry carries its url and the four keys, in order. */
  lemma {:induction false} ImageEntriesShape(row: Dict, urls: seq<Value>, n: nat, localPath: string -> Option<string>)
    requires n <= |urls| && ImageEntries(row, urls, n, localPath).Success?
    ensures forall i :: 0 <= i < n ==>
      var e := ImageEntries(row, urls, n, localPath).value[i];
      Keys(e) == ["url", "local_path", "checksum", "status"] && e[0].1 == urls[i]
  {
    if n > 0 {
      ImageEntriesShape(row, urls, n - 1, localPath);
    }
  }

  /** On success there is one entry per url, holding that url; a missing
      checksum or fetch status, or a falsy path, is stored as None; a row
      without image urls gives no entries. */
  lemma ResolvedImagesSpec(row: Dict, localPath: string -> Option<string>)
    ensures ResolvedImages(row, localPath).Success? ==>
      var urls := Iterate(FieldOrEmpty(row, "image_urls")).value;
      var r := ResolvedImages(row, localPath).value;
      |r| == |urls| && forall i :: 0 <= i < |r| ==> Keys(r[i]) == ["url", "local_path", "checksum", "status"] && r[i][0].1 == urls[i]
    ensures !Truthy(Get(row, "image_urls")) ==> ResolvedImages(row, localPath) == Success([])
  {
    match Iterate(FieldOrEmpty(row, "image_urls"))
    case Failure(_) =>
    case Success(urls) =>
      if ResolvedImages(row, localPath).Success? {
        ImageEntriesShape(row, urls, |urls|, localPath);
      }
  }

  /** A checksum or status list shorter than the index yields None for that image;
      a falsy stored path yields no local path. */
  lemma ImageEntryDefaults(row: Dict, url: Value, idx: nat, localPath: string -> Option<string>)
    requires ImageEntry(row, url, idx, localPath).Success?
    ensures FieldOrEmpty(row, "image_checksums").VList? && idx >= |FieldOrEmpty(row, "image_checksums").items| ==>
      ImageEntry(row, url, idx, localPath).value[2].1 == VNone
    ensures FieldOrEmpty(row, "image_fetch_status").VList? && idx >= |FieldOrEmpty(row, "image_fetch_status").items| ==>
      ImageEntry(row, url, idx, localPath).value[3].1 == VNone
    ensures FieldOrEmpty(row, "image_paths").VList? && idx < |FieldOrEmpty(row, "image_paths").items| && !Truthy(FieldOrEmpty(row, "image_paths").items[idx]) ==>
      ImageEntry(row, url, idx, localPath).value[1].1 == VNone
  {
  }

  // ---------------------------------------------------------------- context score

  function Min(a: int, b: int): int
  {
    if a <= b then a else b
  }

  /** Weight of an optional piece of context: w when the field is truthy. */
  function Weight(record: Dict, k: string, w: real): real
  {
    if Truthy(Get(record, k)) then w else 0.0
  }

  /** The part of rich_context_score that does not depend on the images. */
  function OtherContext(record: Dict): (r: real)
    ensures 0.0 <= r <= 6.5
  {
    Weight(record, "status_notes", 2.0) + Weight(record, "resolution_notes", 1.5)
    + Weight(record, "after_action_url", 1.0) + Weight(record, "hours_to_resolution", 1.0)
    + Weight(record, "tag_size_feet", 0.5) + Weight(record, "tag_num_people", 0.5)
  }

  /** The image part: 1.5 per image up to six when the record has a photo;
      len() of a truthy non-sized image_urls raises. */
  function PhotoContext(record: Dict): (r: Result<real>)
    ensures r.Success? ==> 0.0 <= r.value <= 9.0
  {
    if Truthy(Get(record, "has_photo")) then
      match Len(FieldOrEmpty(record, "image_urls"))
      case Failure(e) => Failure(e)
      case Success(n) => Success(Min(n, 6) as real * 1.5)
    else Success(0.0)
  }

  /** rich_context_score: the image part plus fixed weights for notes,
      resolution notes, an after-action url, a resolution time and the two
      size tags. */
  function RichContextScore(record: Dict): (r: Result<real>)
    ensures r.Success? ==> 0.0 <= r.value <= 15.5
    ensures !Truthy(Get(record, "has_photo")) ==> r.Success? && r.value <= 6.5
  {
    match PhotoContext(record)
    case Failure(e) => Failure(e)
    case Success(p) => Success(p + OtherContext(record))
  }

  /** Replacing the image list leaves the other context untouched. */
  lemma OtherContextIgnoresImages(record: Dict, v: Value)
    ensures OtherContext(Set(record, "image_urls", v)) == OtherContext(record)
  {
    OtherContextIgnores(Set(record, "image_urls", v), record, "image_urls");
  }

  /** Two records that differ at most in one field, whose name is not as long
      as any of the six weighted ones, have the same other context. */
  lemma OtherContextIgnores(a: Dict, b: Dict, k: string)
    requires |k| !in {12, 13, 14, 16, 19}
    requires forall k' :: k' != k ==> Get(a, k') == Get(b, k')
    ensures OtherContext(a) == OtherContext(b)
  {
    assert |"status_notes"| == 12 && |"resolution_notes"| == 16 && |"after_action_url"| == 16;
    assert |"hours_to_resolution"| == 19 && |"tag_size_feet"| == 13 && |"tag_num_people"| == 14;
    OtherContextReadsFields(a, b);
  }

  /** The other context depends on six fields only. */
  lemma OtherContextReadsFields(a: Dict, b: Dict)
    requires Get(a, "status_notes") == Get(b, "status_notes")
    requires Get(a, "resolution_notes") == Get(b, "resolution_notes")
    requires Get(a, "after_action_url") == Get(b, "after_action_url")
    requires Get(a, "hours_to_resolution") == Get(b, "hours_to_resolution")
    requires Get(a, "tag_size_feet") == Get(b, "tag_size_feet")
    requires Get(a, "tag_num_people") == Get(b, "tag_num_people")
    ensures OtherContext(a) == OtherContext(b)
  {
  }

  /** The image part counts the images, up to six. */
  lemma PhotoContextOfList(record: Dict, xs: seq<Value>)
    requires Truthy(Get(record, "has_photo")) && Get(record, "image_urls") == VList(xs)
    ensures PhotoContext(record) == Success(Min(|xs|, 6) as real * 1.5)
  {
    assert FieldOrEmpty(record, "image_urls") == VList(xs);
  }

  /** Of two records with a photo and the same other context, the one with
      more images scores at least as much, and beyond six images the count
      no longer matters. */
  lemma RichContextScoreImages(a: Dict, b: Dict, xs: seq<Value>, ys: seq<Value>)
    requires Truthy(Get(a, "has_photo")) && Truthy(Get(b, "has_photo"))
    requires Get(a, "image_urls") == VList(xs) && Get(b, "image_urls") == VList(ys)
    requires OtherContext(a) == OtherContext(b) && |xs| <= |ys|
    ensures RichContextScore(a).Success? && RichContextScore(b).Success?
    ensures RichContextScore(a).value <= RichContextScore(b).value
    ensures |xs| >= 6 ==> RichContextScore(a).value == RichContextScore(b).value
  {
    PhotoContextOfList(a, xs);
    PhotoContextOfList(b, ys);
  }

  // ---------------------------------------------------------------- status badge

  const ClosedStates: seq<string> := ["closed", "completed", "resolved"]
  const ActiveStates: seq<string> := ["open", "assigned", "in progress"]
  const RedCircle := '\U{1F534}'
  const GreenCircle := '\U{1F7E2}'
  const YellowCircle := '\U{1F7E1}'

  /** The stripped status text a badge shows. */
  function StatusText(record: Dict): string
  {
    Strip(Str(Or(Get(record, "status"), VStr("Unknown"))))
  }

  /** status_badge: a coloured circle, a space and the title-cased status;
      red for a closed state, green for an active one, yellow otherwise,
      whatever the status's case. */
  function StatusBadge(record: Dict): (r: string)
    ensures |r| == 2 + |StatusText(record)| && r[1] == ' '
    ensures r[2..] == Title(StatusText(record))
    ensures r[0] == RedCircle <==> Lower(StatusText(record)) in ClosedStates
    ensures r[0] == GreenCircle <==> Lower(StatusText(record)) !in ClosedStates && Lower(StatusText(record)) in ActiveStates
    ensures r[0] == YellowCircle <==> Lower(StatusText(record)) !in ClosedStates && Lower(StatusText(record)) !in ActiveStates
  {
    var t := StatusText(record);
    var low := Lower(t);
    var c := if low in ClosedStates then RedCircle else if low in ActiveStates then GreenCircle else YellowCircle;
    var r := [c, ' '] + Title(t);
    assert r[2..] == Title(t);
    r
  }

  lemma {:induction false} LowerTitleAfter(s: string, prevCased: bool)
    ensures Lower(TitleAfter(s, prevCased)) == Lower(s)
  {
    if s != [] {
      LowerTitleAfter(s[1..], IsCased(s[0]));
      var t := TitleAfter(s, prevCased);
      assert t == [t[0]] + TitleAfter(s[1..], IsCased(s[0]));
      LowerAppend([t[0]], TitleAfter(s[1..], IsCased(s[0])));
      LowerAppend([s[0]], s[1..]);
      assert [s[0]] + s[1..] == s;
    }
  }

  /** Title-casing keeps the case-insensitive text, so a record whose status
      is the shown, title-cased status of another gets a badge of the same colour. */
  lemma BadgeColourOfTitle(record: Dict, shown: Dict)
    requires StatusText(shown) == Title(StatusText(record))
    ensures StatusBadge(shown)[0] == StatusBadge(record)[0]
  {
    LowerTitleAfter(StatusText(record), false);
  }

  /** A record without a status shows the yellow "Unknown" badge. */
  lemma StatusBadgeMissing(record: Dict)
    requires !Truthy(Get(record, "status"))
    ensures StatusBadge(record) == [YellowCircle, ' '] + "Unknown"
  {
    StatusTextMissing(record);
    UnknownIsNeutral();
    TitleUnknown();
    var r := StatusBadge(record);
    assert r == [r[0], r[1]] + r[2..];
  }

  lemma TitleUnknown()
    ensures Title("Unknown") == "Unknown"
  {
    UnknownIsNeutral();
    TitleOfWord("Unknown", "unknown");
  }

  lemma StatusTextMissing(record: Dict)
    requires !Truthy(Get(record, "status"))
    ensures StatusText(record) == "Unknown"
  {
    assert Or(Get(record, "status"), VStr("Unknown")) == VStr("Unknown");
    StripOfWord("Unknown");
  }

  lemma UnknownIsNeutral()
    ensures Lower("Unknown") == "unknown"
    ensures "unknown" !in ClosedStates && "unknown" !in ActiveStates
  {
    assert |"unknown"| == 7;
  }

  // ---------------------------------------------------------------- note shown with the outcome

  const NoteLimit := 120
  const Ellipsis := '\U{2026}'

  /** The note text before truncation: stripped, newlines turned into spaces. */
  function NoteText(notes: string): (t: string)
    ensures '\n' !in t
  {
    var t := ReplaceChar(Strip(notes), '\n', ' ');
    assert forall i :: 0 <= i < |t| ==> t[i] != '\n';
    t
  }

  /** The cut outcome_highlight applies to the note text: at most 120
      characters; a longer text is cut to a prefix of at most 117 characters
      and an ellipsis; no newline is brought in. */
  function TruncateNote(t: string): (r: string)
    ensures |r| <= NoteLimit
    ensures '\n' !in t ==> '\n' !in r
    ensures |t| <= NoteLimit ==> r == t
    ensures |t| > NoteLimit ==> r != [] && r[|r| - 1] == Ellipsis && StartsWith(t, r[..|r| - 1])
  {
    if |t| > NoteLimit then
      var cut := RStrip(t[..117]);
      var r := cut + [Ellipsis];
      assert r[..|r| - 1] == cut;
      assert '\n' !in t ==> forall i :: 0 <= i < |cut| ==> cut[i] == t[i];
      r
    else t
  }

  /** The " → note" suffix of outcome_highlight: empty without a truthy note
      (status_notes first, then resolution_notes); a note that is not a
      string raises on .strip(). */
  function NoteSuffix(record: Dict): (r: Result<string>)
    ensures !Truthy(Or(Get(record, "status_notes"), Get(record, "resolution_notes"))) ==> r == Success("")
    ensures r.Failure? <==> (Truthy(Or(Get(record, "status_notes"), Get(record, "resolution_notes")))
      && !Or(Get(record, "status_notes"), Get(record, "resolution_notes")).VStr?)
  {
    var notes := Or(Get(record, "status_notes"), Get(record, "resolution_notes"));
    if !Truthy(notes) then Success("")
    else if !notes.VStr? then Failure("AttributeError")
    else Success(" \U{2192} " + TruncateNote(NoteText(notes.s)))
  }
}
