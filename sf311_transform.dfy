/** Ingestion of raw SF311 homeless-concern records: the coercions, the photo
    test, the keyword flags and the normalised record with its clipped fields.
    Regular-expression search, number scanning and date parsing are parameters. */
module Sf311Transform {
  import opened Strings
  import opened PyData
  import opened Ordering

  /** The string forms to_bool accepts, after strip() and lower(). */
  const TrueWords: seq<string> := ["true", "t", "yes", "y", "1"]
  const FalseWords: seq<string> := ["false", "f", "no", "n", "0"]

  /** to_bool: bools pass through, None stays None, and anything else is read
      through the text of str(x). */
  function ToBool(x: Value): (r: Option<bool>)
    ensures x.VBool? ==> r == Some(x.b)
    ensures x == VNone ==> r == None
    ensures !x.VBool? && x != VNone ==>
      (r == Some(true) <==> Lower(Strip(Str(x))) in TrueWords)
    ensures !x.VBool? && x != VNone ==>
      (r == Some(false) <==> Lower(Strip(Str(x))) in FalseWords)
  {
    if x.VBool? then Some(x.b)
    else if x == VNone then None
    else WordTruth(Lower(Strip(Str(x))))
  }

  /** The truth value a normalised word names, if any. */
  function WordTruth(s: string): (r: Option<bool>)
    ensures r == Some(true) <==> s in TrueWords
    ensures r == Some(false) <==> s in FalseWords
  {
    WordsDisjoint(s);
    if s in TrueWords then Some(true)
    else if s in FalseWords then Some(false)
    else None
  }

  /** No word is in both sets: their first letters differ. */
  lemma WordsDisjoint(s: string)
    ensures !(s in TrueWords && s in FalseWords)
  {
    forall i, j | 0 <= i < 5 && 0 <= j < 5 ensures TrueWords[i] != FalseWords[j] {
      assert TrueWords[i][0] in "tty1" && FalseWords[j][0] in "ffnn0";
    }
  }

  /** The integers 1 and 0 read as True and False. */
  lemma ToBoolIntegers()
    ensures ToBool(VInt(1)) == Some(true)
    ensures ToBool(VInt(0)) == Some(false)
  {
    assert Str(VInt(1)) == TrueWords[4];
    assert Str(VInt(0)) == FalseWords[4];
    ToBoolWords(4);
  }

  /** The float 1.0 prints as "1.0", which is in neither word set. */
  lemma ToBoolFloatOne()
    ensures ToBool(VFloat(1.0)) == None
  {
    assert FractionDigits(0.0, 17) == "";
    var t := Str(VFloat(1.0));
    assert t == "1.0";
    LStripNoLead(t);
    RStripNoTrail(t);
    assert Lower(t) == t;
    assert |t| == 3;
    assert t !in TrueWords;
    assert t !in FalseWords;
  }

  lemma LStripNoLead(s: string)
    requires s == [] || !IsSpace(s[0])
    ensures LStrip(s) == s
  {
  }

  lemma RStripNoTrail(s: string)
    requires s == [] || !IsSpace(s[|s| - 1])
    ensures RStrip(s) == s
  {
  }

  lemma LowerCharKeepsSpace(c: char)
    ensures IsSpace(LowerChar(c)) == IsSpace(c)
  {
    if 'A' <= c <= 'Z' {
      assert 'a' <= LowerChar(c) <= 'z';
    }
  }

  /** A stripped string has no whitespace at either end. */
  lemma StripEnds(s: string)
    ensures Strip(s) == [] || (!IsSpace(Strip(s)[0]) && !IsSpace(Strip(s)[|Strip(s)| - 1]))
  {
    var l := LStrip(s);
    var t := RStrip(l);
    if t != [] {
      assert t[0] == l[0];
    }
  }

  lemma LowerIdempotent(u: string)
    ensures Lower(Lower(u)) == Lower(u)
  {
    var l := Lower(u);
    forall i | 0 <= i < |u| ensures Lower(l)[i] == l[i] {
      assert l[i] == LowerChar(u[i]);
    }
  }

  /** Lower-casing keeps a stripped string stripped, and is idempotent. */
  lemma StripLowerStripped(s: string)
    ensures Lower(Strip(Lower(Strip(s)))) == Lower(Strip(s))
  {
    var t := Strip(s);
    StripEnds(s);
    var u := Lower(t);
    if t != [] {
      LowerCharKeepsSpace(t[0]);
      LowerCharKeepsSpace(t[|t| - 1]);
      assert u[0] == LowerChar(t[0]);
      assert u[|u| - 1] == LowerChar(t[|t| - 1]);
    }
    LStripNoLead(u);
    RStripNoTrail(u);
    assert Strip(u) == u;
    LowerIdempotent(t);
  }

  /** Surrounding whitespace and letter case do not matter to to_bool. */
  lemma ToBoolNormalised(s: string)
    ensures ToBool(VStr(s)) == ToBool(VStr(Lower(Strip(s))))
  {
    StripLowerStripped(s);
    assert Str(VStr(s)) == s;
    assert Str(VStr(Lower(Strip(s)))) == Lower(Strip(s));
  }

  /** Each word of the two sets reads back as its truth value. */
  lemma ToBoolWords(i: int)
    requires 0 <= i < 5
    ensures ToBool(VStr(TrueWords[i])) == Some(true)
    ensures ToBool(VStr(FalseWords[i])) == Some(false)
  {
    var t, f := TrueWords[i], FalseWords[i];
    WordsArePlain(i);
    PlainWordNormal(t);
    PlainWordNormal(f);
    assert Str(VStr(t)) == t && Str(VStr(f)) == f;
    assert WordTruth(t) == Some(true) && WordTruth(f) == Some(false);
  }

  /** Lower-case letters and digits only. */
  predicate PlainWord(w: string)
  {
    forall j :: 0 <= j < |w| ==> 'a' <= w[j] <= 'z' || '0' <= w[j] <= '9'
  }

  lemma WordsArePlain(i: int)
    requires 0 <= i < 5
    ensures PlainWord(TrueWords[i]) && PlainWord(FalseWords[i])
  {
  }

  /** A plain word is its own normal form. */
  lemma PlainWordNormal(w: string)
    requires PlainWord(w)
    ensures Lower(Strip(w)) == w
  {
    if w != [] {
      assert !IsSpace(w[0]) && !IsSpace(w[|w| - 1]);
    }
    LStripNoLead(w);
    RStripNoTrail(w);
    assert Lower(w) == w;
  }

  /** to_num: None stays None, a number becomes a float, and anything else is
      scanned for the first decimal number in its text (`numberIn`). */
  function ToNum(x: Value, numberIn: string -> Option<real>): (r: Option<real>)
    ensures x == VNone ==> r == None
    ensures IsNumber(x) ==> r == Some(NumberValue(x))
    ensures x != VNone && !IsNumber(x) ==> r == numberIn(Str(x))
  {
    if x == VNone then None
    else if IsNumber(x) then Some(NumberValue(x))
    else numberIn(Str(x))
  }

  /** parse_dt: a falsy value gives None; otherwise the ISO text of the first
      format that parses str(x) (`parseDt`). */
  function ParseDt(x: Value, parseDt: string -> Option<string>): (r: Option<string>)
    ensures !Truthy(x) ==> r == None
    ensures Truthy(x) ==> r == parseDt(Str(x))
  {
    if !Truthy(x) then None else parseDt(Str(x))
  }

  /** The record fields that may carry photos, in the order they are tried. */
  const PhotoKeys: seq<string> := ["photos", "photo_urls", "media_url", "media_urls", "image_urls"]

  /** A photo field counts when it is a non-empty list or a non-blank string. */
  predicate PhotoValue(v: Value)
  {
    (v.VList? && v.items != []) || (v.VStr? && Strip(v.s) != "")
  }

  /** has_photo's scan over the photo fields from position i on. */
  predicate HasPhotoFrom(rec: Dict, i: nat)
    requires i <= |PhotoKeys|
    decreases |PhotoKeys| - i
  {
    if i == |PhotoKeys| then false
    else PhotoValue(Get(rec, PhotoKeys[i])) || HasPhotoFrom(rec, i + 1)
  }

  predicate HasPhoto(rec: Dict)
  {
    HasPhotoFrom(rec, 0)
  }

  lemma {:induction false} HasPhotoFromIff(rec: Dict, i: nat)
    requires i <= |PhotoKeys|
    ensures HasPhotoFrom(rec, i) <==> exists j :: i <= j < |PhotoKeys| && PhotoValue(Get(rec, PhotoKeys[j]))
    decreases |PhotoKeys| - i
  {
    if i < |PhotoKeys| {
      HasPhotoFromIff(rec, i + 1);
    }
  }

  /** has_photo holds exactly when some photo field holds a non-empty list or a
      string that is not all whitespace. */
  lemma HasPhotoIff(rec: Dict)
    ensures HasPhoto(rec) <==>
      exists j :: 0 <= j < |PhotoKeys| &&
        ((Get(rec, PhotoKeys[j]).VList? && Get(rec, PhotoKeys[j]).items != []) ||
         (Get(rec, PhotoKeys[j]).VStr? && !IsBlank(Get(rec, PhotoKeys[j]).s)))
  {
    HasPhotoFromIff(rec, 0);
    forall j | 0 <= j < |PhotoKeys| && Get(rec, PhotoKeys[j]).VStr?
      ensures Strip(Get(rec, PhotoKeys[j]).s) != "" <==> !IsBlank(Get(rec, PhotoKeys[j]).s)
    {
      StripEmptyIffBlank(Get(rec, PhotoKeys[j]).s);
    }
  }

  /** Fields outside the photo list do not change has_photo. */
  lemma {:induction false} HasPhotoIgnoresOtherFields(rec: Dict, k: string, v: Value)
    requires k !in PhotoKeys
    ensures HasPhoto(Set(rec, k, v)) == HasPhoto(rec)
  {
    HasPhotoFromIff(rec, 0);
    HasPhotoFromIff(Set(rec, k, v), 0);
    forall j | 0 <= j < |PhotoKeys| ensures Get(Set(rec, k, v), PhotoKeys[j]) == Get(rec, PhotoKeys[j]) {
      assert PhotoKeys[j] != k;
    }
  }

  /** The keyword patterns, by name, in the order of KEYWORDS. */
  const Keywords: seq<string> := ["inject", "needle", "blocking", "children", "onramp", "propane",
    "fire", "duplicate", "unable_to_locate", "private_property", "wheelchair", "passed_out"]

  /** The feature key of a keyword. */
  function KwKey(name: string): string
  {
    "kw_" + name
  }

  /** The feature keys of extract_text_feats: desc_len, then kw_<name> per keyword. */
  const FeatKeys: seq<string> := ["desc_len", KwKey("inject"), KwKey("needle"), KwKey("blocking"),
    KwKey("children"), KwKey("onramp"), KwKey("propane"), KwKey("fire"), KwKey("duplicate"),
    KwKey("unable_to_locate"), KwKey("private_property"), KwKey("wheelchair"), KwKey("passed_out")]

  lemma FeatKeysNamed()
    ensures |FeatKeys| == |Keywords| + 1
    ensures forall i :: 0 <= i < |Keywords| ==> FeatKeys[i + 1] == KwKey(Keywords[i])
    ensures NoDup(FeatKeys)
  {
    KeywordsDistinct();
    forall i, j | 0 <= i < j < |FeatKeys| ensures FeatKeys[i] != FeatKeys[j] {
      if i == 0 {
        assert FeatKeys[j][0] == 'k';
      } else {
        assert FeatKeys[i][3..] == Keywords[i - 1] && FeatKeys[j][3..] == Keywords[j - 1];
      }
    }
  }

  lemma KeywordsDistinct()
    ensures NoDup(Keywords)
  {
    forall i, j | 0 <= i < j < |Keywords| ensures Keywords[i] != Keywords[j] {
      var a, b := Keywords[i], Keywords[j];
      assert a[0] != b[0] || |a| != |b|;
    }
  }

  /** The features of a description: its length and, per keyword, whether the
      pattern (`matches(name, text)`) finds it; empty text matches nothing. */
  function TextFeats(txt: string, matches: (string, string) -> bool): (r: Dict)
    ensures |r| == |FeatKeys|
  {
    [("desc_len", VInt(|txt|))] +
    seq(|Keywords|, i requires 0 <= i < |Keywords| =>
      (KwKey(Keywords[i]), VBool(txt != "" && matches(Keywords[i], txt))))
  }

  /** extract_text_feats: empty text gets a zero length and all flags False,
      other text one flag per keyword, added in keyword order. */
  method ExtractTextFeats(txt: string, matches: (string, string) -> bool) returns (feats: Dict)
    ensures feats == TextFeats(txt, matches)
  {
    feats := [("desc_len", VInt(|txt|))];
    for i := 0 to |Keywords|
      invariant feats == TextFeats(txt, matches)[..i + 1]
    {
      var k := KwKey(Keywords[i]);
      var flag := if txt == "" then false else matches(Keywords[i], txt);
      TextFeatsStep(txt, matches, i);
      SetAppends(feats, k, VBool(flag));
      feats := Set(feats, k, VBool(flag));
    }
    assert TextFeats(txt, matches)[..|Keywords| + 1] == TextFeats(txt, matches);
  }

  /** One step of extract_text_feats: the next keyword's flag is a new key,
      set after the ones already there. */
  lemma TextFeatsStep(txt: string, matches: (string, string) -> bool, i: int)
    requires 0 <= i < |Keywords|
    ensures !HasKey(TextFeats(txt, matches)[..i + 1], KwKey(Keywords[i]))
    ensures TextFeats(txt, matches)[..i + 2] == TextFeats(txt, matches)[..i + 1] +
      [(KwKey(Keywords[i]), VBool(if txt == "" then false else matches(Keywords[i], txt)))]
  {
    TextFeatsFresh(txt, matches, i);
    var t := TextFeats(txt, matches);
    assert t[..i + 2] == t[..i + 1] + [t[i + 1]];
  }

  /** No feature before a keyword's flag has its key. */
  lemma TextFeatsFresh(txt: string, matches: (string, string) -> bool, i: int)
    requires 0 <= i < |Keywords|
    ensures !HasKey(TextFeats(txt, matches)[..i + 1], KwKey(Keywords[i]))
  {
    TextFeatsKeys(txt, matches);
    FeatKeyFresh(i);
    var t := TextFeats(txt, matches);
    var feats := t[..i + 1];
    forall j | 0 <= j < |feats| ensures feats[j].0 != KwKey(Keywords[i]) {
      assert feats[j].0 == Keys(t)[j];
    }
  }

  /** A keyword's feature key comes after every key before it. */
  lemma FeatKeyFresh(i: int)
    requires 0 <= i < |Keywords|
    ensures forall j :: 0 <= j <= i ==> FeatKeys[j] != KwKey(Keywords[i])
  {
    FeatKeysNamed();
  }

  /** Empty and non-empty text give the same keys in the same order. */
  lemma TextFeatsKeys(txt: string, matches: (string, string) -> bool)
    ensures Keys(TextFeats(txt, matches)) == FeatKeys
  {
    var r := TextFeats(txt, matches);
    FeatKeysNamed();
    forall i | 0 <= i < |FeatKeys| ensures Keys(r)[i] == FeatKeys[i] {
      if i > 0 {
        assert r[i].0 == KwKey(Keywords[i - 1]);
      }
    }
  }

  /** What each feature reads back as. */
  lemma TextFeatsGet(txt: string, matches: (string, string) -> bool, i: int)
    requires 0 <= i < |Keywords|
    ensures Get(TextFeats(txt, matches), "desc_len") == VInt(|txt|)
    ensures Get(TextFeats(txt, matches), FeatKeys[i + 1]) == VBool(txt != "" && matches(Keywords[i], txt))
  {
    var r := TextFeats(txt, matches);
    GetAt(r, 0);
    TextFeatsFlagGet(txt, matches, i);
  }

  lemma TextFeatsFlagGet(txt: string, matches: (string, string) -> bool, i: int)
    requires 0 <= i < |Keywords|
    ensures Get(TextFeats(txt, matches), FeatKeys[i + 1]) == VBool(txt != "" && matches(Keywords[i], txt))
  {
    var r := TextFeats(txt, matches);
    TextFeatsKeys(txt, matches);
    FeatKeysNamed();
    forall j | 0 <= j < i + 1 ensures r[j].0 != r[i + 1].0 {
      assert r[j].0 == Keys(r)[j] && r[i + 1].0 == Keys(r)[i + 1];
    }
    GetAt(r, i + 1);
    assert r[i + 1] == (KwKey(Keywords[i]), VBool(txt != "" && matches(Keywords[i], txt)));
  }

  /** With no text every flag is False and the length is 0. */
  lemma TextFeatsEmpty(matches: (string, string) -> bool)
    ensures Get(TextFeats("", matches), "desc_len") == VInt(0)
    ensures forall i :: 1 <= i < |FeatKeys| ==> Get(TextFeats("", matches), FeatKeys[i]) == VBool(false)
  {
    TextFeatsGet("", matches, 0);
    forall i | 1 <= i < |FeatKeys| ensures Get(TextFeats("", matches), FeatKeys[i]) == VBool(false) {
      TextFeatsGet("", matches, i - 1);
    }
  }

  /** The pattern behind each derived number or date, and the keyword matcher. */
  datatype Parsers = Parsers(
    numberIn: string -> Option<real>,
    parseDt: string -> Option<string>,
    matches: (string, string) -> bool)

  function OptValue(o: Option<string>): Value
  {
    if o.Some? then VStr(o.value) else VNone
  }

  function OptBoolValue(o: Option<bool>): Value
  {
    if o.Some? then VBool(o.value) else VNone
  }

  function OptRealValue(o: Option<real>): Value
  {
    if o.Some? then VFloat(o.value) else VNone
  }

  /** The keys of a normalised record, in order. */
  const HeadKeys: seq<string> := ["request_id", "created_at", "status", "status_notes",
    "police_district", "lat", "lon", "has_photo", "text"]
  const TagKeys: seq<string> := ["tag_safety_issue", "tag_drugs", "tag_person_position",
    "tag_lying_face_down", "tag_tents_present", "tag_size_feet", "tag_num_people",
    "derived_is_private_property"]
  const OutKeys: seq<string> := HeadKeys + FeatKeys + TagKeys

  /** The fields ahead of the features: identifiers, status, place, photo flag and text. */
  function Head(rec: Dict, text: string, p: Parsers): (r: Dict)
    ensures Keys(r) == HeadKeys
  {
    ZipDict(HeadKeys,
      [Or(Get(rec, "service_request_id"), Get(rec, "id")),
       OptValue(ParseDt(Or(Or(Get(rec, "requested_datetime"), Get(rec, "created_at")),
                           Get(rec, "createdDate")), p.parseDt)),
       Get(rec, "status"),
       Or(Get(rec, "status_notes"), Get(rec, "statusNotes")),
       Or(Get(rec, "police_district"), Get(rec, "policeDistrict")),
       OptRealValue(ToNum(Or(Get(rec, "lat"), Get(rec, "latitude")), p.numberIn)),
       OptRealValue(ToNum(Or(Or(Get(rec, "long"), Get(rec, "lon")), Get(rec, "longitude")), p.numberIn)),
       VBool(HasPhoto(rec)),
       if text != "" then VStr(text) else VNone])
  }

  /** The tag fields read from homeless_tags, and the private-property flag
      copied from the features (False when the features lack it). */
  function Tail(tags: Dict, feats: Dict, p: Parsers): (r: Dict)
    ensures Keys(r) == TagKeys
  {
    var position := Get(tags, "person_position");
    ZipDict(TagKeys,
      [OptBoolValue(ToBool(Get(tags, "safety_issue"))),
       OptBoolValue(ToBool(Get(tags, "drugs"))),
       if position != VNone then VStr(Lower(Strip(Str(position)))) else VNone,
       OptBoolValue(ToBool(Get(tags, "person_lying_face_down_on_sidewalk"))),
       OptBoolValue(ToBool(Get(tags, "tents_or_makeshift_present"))),
       OptRealValue(ToNum(Get(tags, "size_feet"), p.numberIn)),
       OptRealValue(ToNum(Get(tags, "num_people"), p.numberIn)),
       if HasKey(feats, "kw_private_property") then Get(feats, "kw_private_property") else VBool(false)])
  }

  /** The record before clipping, with the keys of OutKeys in order. */
  function Base(rec: Dict, tags: Dict, text: string, p: Parsers): (r: Dict)
    ensures Keys(r) == OutKeys
  {
    var feats := TextFeats(text, p.matches);
    TextFeatsKeys(text, p.matches);
    KeysAppend(Head(rec, text, p), feats);
    KeysAppend(Head(rec, text, p) + feats, Tail(tags, feats, p));
    Head(rec, text, p) + feats + Tail(tags, feats, p)
  }

  /** max(0.0, min(x, hi)) */
  function Clip(x: real, hi: real): (r: real)
    ensures 0.0 <= r
    ensures 0.0 <= hi ==> r <= hi
    ensures 0.0 <= x <= hi ==> r == x
    ensures x < 0.0 ==> r == 0.0
    ensures 0.0 <= hi < x ==> r == hi
  {
    var m := if x < hi then x else hi;
    if m < 0.0 then 0.0 else m
  }

  /** out[k] = max(0.0, min(float(out[k]), hi)) when out[k] is not None. The
      value comes from to_num, so it is a number whenever it is not None. */
  function ClipField(d: Dict, k: string, hi: real): (r: Dict)
    ensures HasKey(d, k) ==> Keys(r) == Keys(d)
    ensures forall k' :: k' != k ==> Get(r, k') == Get(d, k')
    ensures Get(d, k) == VNone ==> Get(r, k) == VNone
    ensures IsNumber(Get(d, k)) ==> Get(r, k) == VFloat(Clip(NumberValue(Get(d, k)), hi))
  {
    var v := Get(d, k);
    if v != VNone && IsNumber(v) then Set(d, k, VFloat(Clip(NumberValue(v), hi))) else d
  }

  const PeopleMax: real := 25.0

  /** normalize_record as a value: Failure when homeless_tags or description is
      truthy but of the wrong type (the .get or .strip raises AttributeError). */
  function Normalized(rec: Dict, sizeMax: real, p: Parsers): (r: Result<Dict>)
  {
    var tags := Or(Get(rec, "homeless_tags"), VDict([]));
    var desc := Or(Get(rec, "description"), VStr(""));
    if !tags.VDict? || !desc.VStr? then Failure("AttributeError")
    else
      var base := Base(rec, tags.entries, Strip(desc.s), p);
      Success(ClipField(ClipField(base, "tag_size_feet", sizeMax), "tag_num_people", PeopleMax))
  }

  /** normalize_record: build the output record, then clip the size and people
      counts in place. */
  method NormalizeRecord(rec: Dict, sizeMax: real, p: Parsers) returns (r: Result<Dict>)
    ensures r == Normalized(rec, sizeMax, p)
  {
    var tags := Or(Get(rec, "homeless_tags"), VDict([]));
    var desc := Or(Get(rec, "description"), VStr(""));
    if !desc.VStr? || !tags.VDict? {
      return Failure("AttributeError");
    }
    var text := Strip(desc.s);
    var feats := ExtractTextFeats(text, p.matches);
    var out := Head(rec, text, p) + feats + Tail(tags.entries, feats, p);
    assert out == Base(rec, tags.entries, text, p);
    var size := Get(out, "tag_size_feet");
    if size != VNone && IsNumber(size) {
      out := Set(out, "tag_size_feet", VFloat(Clip(NumberValue(size), sizeMax)));
    }
    var people := Get(out, "tag_num_people");
    if people != VNone && IsNumber(people) {
      out := Set(out, "tag_num_people", VFloat(Clip(NumberValue(people), PeopleMax)));
    }
    return Success(out);
  }

  /** The only failures are a truthy non-dict homeless_tags and a truthy
      non-string description. */
  lemma NormalizedFails(rec: Dict, sizeMax: real, p: Parsers)
    ensures Normalized(rec, sizeMax, p).Failure? <==>
      (Truthy(Get(rec, "homeless_tags")) && !Get(rec, "homeless_tags").VDict?) ||
      (Truthy(Get(rec, "description")) && !Get(rec, "description").VStr?)
  {
  }

  lemma OutKeysDistinct()
    ensures NoDup(OutKeys)
    ensures |OutKeys| == 30
    ensures OutKeys[27] == "tag_size_feet" && OutKeys[28] == "tag_num_people"
  {
    FeatKeysNamed();
    HeadTagKeysDistinct();
    FeatKeysApart();
    var hf := HeadKeys + FeatKeys;
    NoDupAppend(HeadKeys, FeatKeys);
    forall i, j | 0 <= i < |hf| && 0 <= j < |TagKeys| ensures hf[i] != TagKeys[j] {
      if i < |HeadKeys| {
        assert hf[i] == HeadKeys[i];
      } else {
        assert hf[i] == FeatKeys[i - |HeadKeys|];
      }
    }
    NoDupAppend(hf, TagKeys);
  }

  /** A feature key is desc_len or starts with "kw_"; no head or tag key is either. */
  lemma FeatKeysApart()
    ensures forall i, j :: 0 <= i < |HeadKeys| && 0 <= j < |FeatKeys| ==> HeadKeys[i] != FeatKeys[j]
    ensures forall i, j :: 0 <= i < |TagKeys| && 0 <= j < |FeatKeys| ==> TagKeys[i] != FeatKeys[j]
  {
    forall j | 0 <= j < |FeatKeys| ensures FeatKeys[j] == "desc_len" || (|FeatKeys[j]| > 3 && FeatKeys[j][..3] == "kw_") {
      if j > 0 {
        assert FeatKeys[j] == KwKey(Keywords[j - 1]);
      }
    }
  }

  /** The head keys and the tag keys are each distinct, and apart from each other. */
  lemma HeadTagKeysDistinct()
    ensures NoDup(HeadKeys) && NoDup(TagKeys)
    ensures forall i, j :: 0 <= i < |HeadKeys| && 0 <= j < |TagKeys| ==> HeadKeys[i] != TagKeys[j]
  {
  }

  /** A field of the unclipped record reads back as its entry. */
  lemma BaseGet(rec: Dict, tags: Dict, text: string, p: Parsers, i: int)
    requires 0 <= i < 30
    ensures Get(Base(rec, tags, text, p), OutKeys[i]) == Base(rec, tags, text, p)[i].1
  {
    var b := Base(rec, tags, text, p);
    OutKeysDistinct();
    forall j | 0 <= j < i ensures b[j].0 != b[i].0 {
      assert Keys(b)[j] == b[j].0 && Keys(b)[i] == b[i].0;
    }
    GetAt(b, i);
  }

  /** The tags dictionary normalize_record reads (homeless_tags or {}). */
  function TagsOf(rec: Dict): Dict
  {
    var tags := Or(Get(rec, "homeless_tags"), VDict([]));
    if tags.VDict? then tags.entries else []
  }

  /** The stripped description normalize_record works on. */
  function TextOf(rec: Dict): string
  {
    var desc := Or(Get(rec, "description"), VStr(""));
    if desc.VStr? then Strip(desc.s) else ""
  }

  lemma NormalizedIsClippedBase(rec: Dict, sizeMax: real, p: Parsers)
    requires Normalized(rec, sizeMax, p).Success?
    ensures Normalized(rec, sizeMax, p).value ==
      ClipField(ClipField(Base(rec, TagsOf(rec), TextOf(rec), p), "tag_size_feet", sizeMax), "tag_num_people", PeopleMax)
  {
  }

  /** A field other than the two clipped ones reads as in the unclipped record. */
  lemma NormalizedGet(rec: Dict, sizeMax: real, p: Parsers, i: int)
    requires Normalized(rec, sizeMax, p).Success?
    requires 0 <= i < 30 && i != 27 && i != 28
    ensures Get(Normalized(rec, sizeMax, p).value, OutKeys[i]) == Base(rec, TagsOf(rec), TextOf(rec), p)[i].1
  {
    NormalizedIsClippedBase(rec, sizeMax, p);
    OutKeysDistinct();
    assert OutKeys[i] != OutKeys[27] && OutKeys[i] != OutKeys[28];
    BaseGet(rec, TagsOf(rec), TextOf(rec), p, i);
  }

  /** The normalised record has the keys of OutKeys, in that order. */
  lemma NormalizedKeys(rec: Dict, sizeMax: real, p: Parsers)
    requires Normalized(rec, sizeMax, p).Success?
    ensures Keys(Normalized(rec, sizeMax, p).value) == OutKeys
  {
    var b := Base(rec, TagsOf(rec), TextOf(rec), p);
    NormalizedIsClippedBase(rec, sizeMax, p);
    CountKeysAt();
    KeysHasKey(b, 27);
    var c := ClipField(b, "tag_size_feet", sizeMax);
    KeysHasKey(c, 28);
  }

  /** Where the two clipped fields sit. */
  lemma CountKeysAt()
    ensures OutKeys[27] == "tag_size_feet" && OutKeys[28] == "tag_num_people"
  {
    assert OutKeys[27] == TagKeys[5] && OutKeys[28] == TagKeys[6];
  }

  /** The unclipped size and head count are to_num of the tag values. */
  lemma BaseCounts(rec: Dict, tags: Dict, text: string, p: Parsers)
    ensures Get(Base(rec, tags, text, p), "tag_size_feet") == OptRealValue(ToNum(Get(tags, "size_feet"), p.numberIn))
    ensures Get(Base(rec, tags, text, p), "tag_num_people") == OptRealValue(ToNum(Get(tags, "num_people"), p.numberIn))
  {
    var b := Base(rec, tags, text, p);
    var t := Tail(tags, TextFeats(text, p.matches), p);
    OutKeysDistinct();
    BaseGet(rec, tags, text, p, 27);
    BaseGet(rec, tags, text, p, 28);
    assert b[27] == t[5] && b[28] == t[6];
  }

  /** Clipping a field that holds to_num's result. */
  lemma ClipFieldOpt(d: Dict, k: string, hi: real, raw: Option<real>)
    requires Get(d, k) == OptRealValue(raw)
    ensures Get(ClipField(d, k, hi), k) == if raw.Some? then VFloat(Clip(raw.value, hi)) else VNone
  {
  }

  /** The two clips of normalize_record, on a record holding to_num's results. */
  lemma ClipCounts(b: Dict, sizeMax: real, rawSize: Option<real>, rawPeople: Option<real>)
    requires Get(b, "tag_size_feet") == OptRealValue(rawSize)
    requires Get(b, "tag_num_people") == OptRealValue(rawPeople)
    ensures var out := ClipField(ClipField(b, "tag_size_feet", sizeMax), "tag_num_people", PeopleMax);
      Get(out, "tag_size_feet") == (if rawSize.Some? then VFloat(Clip(rawSize.value, sizeMax)) else VNone) &&
      Get(out, "tag_num_people") == (if rawPeople.Some? then VFloat(Clip(rawPeople.value, PeopleMax)) else VNone)
  {
    assert "tag_num_people" != "tag_size_feet" by { assert "tag_num_people"[4] != "tag_size_feet"[4]; }
    ClipTwo(b, "tag_size_feet", "tag_num_people", sizeMax, PeopleMax, rawSize, rawPeople);
  }

  /** Clipping two different fields one after the other clips each. */
  lemma ClipTwo(b: Dict, k1: string, k2: string, hi1: real, hi2: real, raw1: Option<real>, raw2: Option<real>)
    requires k1 != k2
    requires Get(b, k1) == OptRealValue(raw1) && Get(b, k2) == OptRealValue(raw2)
    ensures var out := ClipField(ClipField(b, k1, hi1), k2, hi2);
      Get(out, k1) == (if raw1.Some? then VFloat(Clip(raw1.value, hi1)) else VNone) &&
      Get(out, k2) == (if raw2.Some? then VFloat(Clip(raw2.value, hi2)) else VNone)
  {
    var c := ClipField(b, k1, hi1);
    ClipFieldOpt(b, k1, hi1, raw1);
    assert Get(c, k2) == Get(b, k2);
    ClipFieldOpt(c, k2, hi2, raw2);
    assert Get(ClipField(c, k2, hi2), k1) == Get(c, k1);
  }

  /** A present size lies in [0, size_max] (in [0, 0] when size_max is
      negative); it is None exactly when to_num found no number, and is the
      clipped number otherwise, so a value already in range is kept. A present
      head count lies in [0, 25] on the same terms. */
  lemma NormalizedClipped(rec: Dict, sizeMax: real, p: Parsers)
    requires Normalized(rec, sizeMax, p).Success?
    ensures var v := Get(Normalized(rec, sizeMax, p).value, "tag_size_feet");
      var raw := ToNum(Get(TagsOf(rec), "size_feet"), p.numberIn);
      v == (if raw.Some? then VFloat(Clip(raw.value, sizeMax)) else VNone)
    ensures var v := Get(Normalized(rec, sizeMax, p).value, "tag_num_people");
      var raw := ToNum(Get(TagsOf(rec), "num_people"), p.numberIn);
      v == (if raw.Some? then VFloat(Clip(raw.value, PeopleMax)) else VNone)
  {
    var b := Base(rec, TagsOf(rec), TextOf(rec), p);
    NormalizedIsClippedBase(rec, sizeMax, p);
    BaseCounts(rec, TagsOf(rec), TextOf(rec), p);
    ClipCounts(b, sizeMax, ToNum(Get(TagsOf(rec), "size_feet"), p.numberIn),
      ToNum(Get(TagsOf(rec), "num_people"), p.numberIn));
  }

  /** The bounds of the clipped fields. */
  lemma NormalizedBounds(rec: Dict, sizeMax: real, p: Parsers)
    requires Normalized(rec, sizeMax, p).Success?
    ensures var v := Get(Normalized(rec, sizeMax, p).value, "tag_size_feet");
      v == VNone || (v.VFloat? && 0.0 <= v.f && (0.0 <= sizeMax ==> v.f <= sizeMax))
    ensures var v := Get(Normalized(rec, sizeMax, p).value, "tag_num_people");
      v == VNone || (v.VFloat? && 0.0 <= v.f <= 25.0)
  {
    NormalizedClipped(rec, sizeMax, p);
  }

  /** text is None exactly when the stripped description is empty, and is that
      stripped description otherwise. */
  lemma NormalizedText(rec: Dict, sizeMax: real, p: Parsers)
    requires Normalized(rec, sizeMax, p).Success?
    ensures Get(Normalized(rec, sizeMax, p).value, "text") == VNone <==> TextOf(rec) == ""
    ensures TextOf(rec) != "" ==> Get(Normalized(rec, sizeMax, p).value, "text") == VStr(TextOf(rec))
  {
    NormalizedGet(rec, sizeMax, p, 8);
  }

  /** request_id is service_request_id, or id when that is falsy. */
  lemma NormalizedRequestId(rec: Dict, sizeMax: real, p: Parsers)
    requires Normalized(rec, sizeMax, p).Success?
    ensures Get(Normalized(rec, sizeMax, p).value, "request_id") ==
      if Truthy(Get(rec, "service_request_id")) then Get(rec, "service_request_id") else Get(rec, "id")
  {
    NormalizedGet(rec, sizeMax, p, 0);
  }

  /** Each keyword flag is the matcher's verdict on the stripped description,
      False for an empty one. */
  lemma NormalizedFlags(rec: Dict, sizeMax: real, p: Parsers, i: int)
    requires Normalized(rec, sizeMax, p).Success?
    requires 0 <= i < |Keywords|
    ensures Get(Normalized(rec, sizeMax, p).value, FeatKeys[i + 1]) ==
      VBool(TextOf(rec) != "" && p.matches(Keywords[i], TextOf(rec)))
  {
    var t := TextOf(rec);
    NormalizedGet(rec, sizeMax, p, 9 + i + 1);
    FeatKeysNamed();
    assert OutKeys[9 + i + 1] == FeatKeys[i + 1];
    assert Base(rec, TagsOf(rec), t, p)[9 + i + 1] == TextFeats(t, p.matches)[i + 1];
  }

  /** derived_is_private_property is the kw_private_property flag. */
  lemma NormalizedDerived(rec: Dict, sizeMax: real, p: Parsers)
    requires Normalized(rec, sizeMax, p).Success?
    ensures Get(Normalized(rec, sizeMax, p).value, "derived_is_private_property") ==
      Get(Normalized(rec, sizeMax, p).value, "kw_private_property")
  {
    var t := TextOf(rec);
    PrivatePropertyKeys();
    NormalizedGet(rec, sizeMax, p, 29);
    NormalizedFlags(rec, sizeMax, p, 9);
    BaseDerived(rec, TagsOf(rec), t, p);
    TextFeatsGet(t, p.matches, 9);
  }

  /** Where the two private-property keys sit. */
  lemma PrivatePropertyKeys()
    ensures FeatKeys[10] == "kw_private_property" && Keywords[9] == "private_property"
    ensures OutKeys[29] == "derived_is_private_property"
  {
    assert OutKeys[29] == TagKeys[7];
  }

  /** The derived flag of the unclipped record copies the keyword flag. */
  lemma BaseDerived(rec: Dict, tags: Dict, text: string, p: Parsers)
    ensures Base(rec, tags, text, p)[29].1 == Get(TextFeats(text, p.matches), "kw_private_property")
  {
    var feats := TextFeats(text, p.matches);
    PrivateFlagPresent(text, p.matches);
    TailDerived(tags, feats, p);
    assert Base(rec, tags, text, p)[29] == Tail(tags, feats, p)[7];
  }

  /** The keyword features always hold kw_private_property. */
  lemma PrivateFlagPresent(text: string, matches: (string, string) -> bool)
    ensures HasKey(TextFeats(text, matches), "kw_private_property")
  {
    var feats := TextFeats(text, matches);
    PrivatePropertyKeys();
    TextFeatsKeys(text, matches);
    assert Keys(feats)[10] == feats[10].0;
  }

  /** With the keyword flag present, the derived entry is a copy of it. */
  lemma TailDerived(tags: Dict, feats: Dict, p: Parsers)
    requires HasKey(feats, "kw_private_property")
    ensures Tail(tags, feats, p)[7].1 == Get(feats, "kw_private_property")
  {
  }

}
