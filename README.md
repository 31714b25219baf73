# SF-311 Data Annotation Tool — a verified model of its core logic

The tool has two parts. The first takes San Francisco 311 service requests about encampments and
normalises them into records: flags, tags and a photo indicator. The second is a Streamlit labeling
app where annotators assign priority, conditions and a GOA ("gone on arrival") window. Around these
sit an export of the labels to JSONL/CSV, an image cache and a few GOA reports. This project models
their deterministic core in Dafny and proves what the code promises about it.

The modules follow the scripts:

- `LabelerUtils` (labeler_utils.py) covers the label-set rules. Labels are sorted by parsed timestamp
  with a stable sort. An annotator's identity comes from a fallback chain of fields. Other rules:
  the distinct contributors in order of first appearance, the per-request cap on contributors, the
  four-way request classifier, the latest label of one annotator, and password verification.
- `LabelerQueue` (the `subset` filter pipeline of labeler_app.py) covers the per-request status map
  and the four queue sort modes. The recommended key is a Python tuple compared lexicographically.
- `LabelerSession` models the state `main` keeps in `st.session_state` between reruns, as the class
  `Session`:
  - the queue order reconciled with the freshly filtered ids;
  - the current request and its index;
  - Prev / Skip / Save navigation;
  - the review-mode check before saving;
  - the single-level undo context, the prefill, the queue search, the reset flag and the status filter.
  The label store is a class `LabelStore`. Its insert and delete calls are given their success as an
  argument.
- `LabelerDisplay` holds the normalisers of labeler_app.py: priority and GOA-window resolution,
  outcome and follow-up display, feature defaults taken from a record, the image list, the
  rich-context score, the status badge, and the note shown in the outcome highlight.
- `Sf311Transform` (sf311_transform.py) covers `to_bool`, `to_num`, `parse_dt`, `has_photo`,
  `extract_text_feats` and `normalize_record`, including its clipping of size and people counts.
- `Sf311Eval` (sf311_eval.py) covers the seven record checks and the `run_checks` counters, pass
  rates and failure examples. It also proves that a normalised record passes five of the checks.
- `ExportLabels` (export_labels.py) covers the paged fetch, `flatten_row` with its twenty CSV
  columns, and the CSV records written.
- `FetchImages` (fetch_images.py) covers:
  - image file names;
  - the last-wins manifest;
  - the choice of which urls still need a download;
  - the tally of manifest entries.
- `GoaResolution`, `GoaPhoto` and `GoaReport` cover the two `bucket_status` variants, the category
  order of the summary and the two markdown table writers.
- `PyData`, `Strings` and `Ordering` carry the Python semantics the others rely on:
  - JSON values, and dictionaries in insertion order;
  - truthiness, `or` and `str()`;
  - `lower`/`title` on ASCII letters only (see Left out), and `strip` over Python's whitespace;
  - `sorted` as a stable insertion sort, filters, and `list.index`.

Python exceptions that escape a function are `Failure` results. Values the code reads from outside
become function parameters: regex matches, hashing, date parsing, JSON decoding, file existence and
network calls.

Where the description of the tool and the code disagree, the model follows the code:

- `request_status` (labeler_utils.py:58-68) takes one argument and has four outcomes: "unlabeled",
  "needs_review", "conflict" and "labeled". There is no quorum rule. The call sites in
  labeler_app.py pass `REQUIRED_UNIQUE_FOR_COMPLETION` as a second argument, which the definition
  shown does not accept. The model ignores it.
- The queue is local to a session. There is no seeded shuffle, dataset hash or persisted cursor.
- Undo writes `idx` (labeler_app.py:731), but the next rerun recomputes `idx` from
  `current_request_id` (977-978). The visible "return to that request" effect comes from
  `queue_search` (736). `Session.Undo` and `Session.Refresh` state both halves.
- In `subset` the inner branch at labeler_app.py:646-647 never passes a row. So "conflict" rows
  appear only under the "all" filter (`LabelerQueue.SubsetStatus`).
- In `record_feature_defaults`, the `bool` branch at labeler_app.py:602 is unreachable. A Python
  bool already passes `isinstance(x, (int, float))` at line 600, so True gives `max(int(True), 0)`,
  which is 1 (`LabelerDisplay.TentsDefaultOfBool`).

## Model

| member | source | states |
|---|---|---|
| LabelerUtils.StampLePreorder | scripts/labeler_utils.py:35-36 | the sort key (the parsed timestamp, or datetime.min) induces a total preorder on labels |
| LabelerUtils.SortLabelsOrdered | scripts/labeler_utils.py:35-36 | sort_labels is a permutation, ordered by timestamp key; everything sorted before a label without a timestamp also has the minimal key datetime.min |
| LabelerUtils.SortLabelsStable | scripts/labeler_utils.py:35-36 | the sort is stable: labels with equal keys keep their input order |
| LabelerUtils.LabelUid | scripts/labeler_utils.py:39-46 | the uid is "" iff none of annotator_uid, annotator_id, annotator, annotator_email is present; otherwise it is the first present one in that order |
| LabelerUtils.UniqueAnnotators | scripts/labeler_utils.py:49-55 | the loop over the sorted labels computes exactly the first-appearance list of non-empty uids |
| LabelerUtils.FirstAppearancesMembers | scripts/labeler_utils.py:49-55 | the first-appearance list has no duplicates and holds exactly the non-empty ids of the input |
| LabelerUtils.FirstAppearancesOrder | scripts/labeler_utils.py:49-55 | ids are listed in the order of their first occurrence |
| LabelerUtils.AnnotatorsSpec | scripts/labeler_utils.py:49-55 | unique_annotators has no duplicates, holds exactly the non-empty uids of the labels, in first-appearance order over the timestamp-sorted labels |
| LabelerUtils.AnnotatorsCount | scripts/labeler_utils.py:49-55 | the length of unique_annotators is the number of distinct non-empty uids |
| LabelerUtils.CanAnnotatorLabelSpec | scripts/labeler_utils.py:79-86 | an existing contributor may always label; a newcomer may label iff the distinct-contributor count is below max_annotators |
| LabelerUtils.CapPreserved | scripts/labeler_utils.py:79-86 | adding a label that can_annotator_label admits never takes the contributor count above the cap |
| LabelerUtils.RequestStatus | scripts/labeler_utils.py:58-68 | the classifier returns one of its four outcomes |
| LabelerUtils.RequestStatusCases | scripts/labeler_utils.py:58-68 | each outcome, iff: no labels gives "unlabeled"; some label flags review gives "needs_review"; otherwise two labels with different present priorities give "conflict"; otherwise "labeled" |
| LabelerUtils.PrioritiesConflict | scripts/labeler_utils.py:65-67 | the set of present priorities has more than one element iff two labels carry different present priorities |
| LabelerUtils.NeedsReviewDominates | scripts/labeler_utils.py:61-64 | inserting a label that flags review anywhere in any list makes the status "needs_review" |
| LabelerUtils.MatchingMembers | scripts/labeler_utils.py:73 | the matching list holds exactly the labels whose uid is the annotator |
| LabelerUtils.LatestLabelForAnnotatorSpec | scripts/labeler_utils.py:71-76 | None iff no label's uid is the annotator; otherwise a matching label with maximal timestamp, the last of its timestamp class in input order |
| LabelerUtils.VerifyPassword | scripts/labeler_utils.py:93-96 | an empty stored hash accepts every password; otherwise the password is accepted iff its hash equals the stored one |
| LabelerUtils.VerifyOwnHash | scripts/labeler_utils.py:89-96 | a password always verifies against its own hash |
| LabelerQueue.CheckTags | scripts/labeler_app.py:624-630 | pass_tag's loop returns true iff every requested tag filter is satisfied by a tag that is exactly True |
| LabelerQueue.KeepRow | scripts/labeler_app.py:635-674 | one pass of the filter body decides exactly the keep predicate: photo, keyword, tag, status, search, context, only-mine and cap filters |
| LabelerQueue.Subset | scripts/labeler_app.py:608-675 | the loop returns the rows that pass every filter, in input order |
| LabelerQueue.SubsetOrder | scripts/labeler_app.py:634-675 | subset is an order-preserving subsequence of rows, holding exactly the rows that pass the filters |
| LabelerQueue.SubsetCap | scripts/labeler_app.py:670-673 | every returned row admits the annotator under MAX_ANNOTATORS; with only_mine the annotator already contributed |
| LabelerQueue.SubsetStatus | scripts/labeler_app.py:645-649 | every returned row passes the status filter; under any listed filter other than "all", no "conflict" row is returned |
| LabelerQueue.StatusAllKeepsEveryStatus | scripts/labeler_app.py:645 | the "all" filter passes every status |
| LabelerQueue.SearchFindsOwnRow | scripts/labeler_app.py:650-663 | searching for a row's own request id (case-insensitively) never filters that row out |
| LabelerQueue.StatusByRequest | scripts/labeler_app.py:781-788 | the status map has one entry per request id of rows_all, each holding request_status of that request's labels |
| LabelerQueue.KeyLeTotal | scripts/labeler_app.py:927-935 | comparison of the five-field recommended key is total |
| LabelerQueue.KeyLeTrans | scripts/labeler_app.py:927-935 | comparison of the five-field recommended key is transitive |
| LabelerQueue.RecommendedLePreorder | scripts/labeler_app.py:927-937 | the tuple key (status score, photo score, negated context score, recency, user random) orders rows as a total preorder |
| LabelerQueue.SortQueue | scripts/labeler_app.py:920-946 | every sort mode returns a permutation of the rows; only the recommended mode can raise, exactly when some row's context score raises |
| LabelerQueue.RecommendedOrder | scripts/labeler_app.py:920-937 | the recommended order puts needs_review before unlabeled before labeled, then rows with photos first, and is stable on equal keys |
| LabelerQueue.TimePreorders | scripts/labeler_app.py:938-944 | the oldest-first and newest-first keys are total preorders |
| LabelerQueue.OldestFirstOrder | scripts/labeler_app.py:938-939 | oldest first orders by created time ascending, with rows without a time (datetime.max) last |
| LabelerQueue.NewestFirstOrder | scripts/labeler_app.py:940-944 | newest first orders by created time descending, with a missing time taken as datetime.min |
| LabelerQueue.IdPreorder | scripts/labeler_app.py:945-946 | the request-id key is a total preorder |
| LabelerQueue.RequestIdOrder | scripts/labeler_app.py:945-946 | the request-id mode orders rows by str(request_id or "") ascending |
| LabelerSession.WithoutLabelSpec | scripts/labeler_app.py:475-478 | deleting by label_id keeps exactly the rows with another label_id, in order |
| LabelerSession.SaveThenDeleteRestores | scripts/labeler_app.py:459-482 | inserting a payload with a fresh label_id and then deleting that label_id restores the table |
| LabelerSession.LabelStore.Insert | scripts/labeler_app.py:459-472 | a successful save appends the payload; a failed one changes nothing; the result reports which |
| LabelerSession.LabelStore.Delete | scripts/labeler_app.py:475-481 | a successful delete removes the rows with that label_id; a failed one changes nothing |
| LabelerSession.AppendMissingPrefix | scripts/labeler_app.py:962-964 | appending missing ids keeps the old queue as a prefix, and everything appended is new |
| LabelerSession.AppendMissingMembers | scripts/labeler_app.py:962-964 | after appending, the queue holds exactly the old entries and the new ids |
| LabelerSession.AppendMissingNoDup | scripts/labeler_app.py:962-964 | appending missing ids to a duplicate-free queue gives a duplicate-free queue |
| LabelerSession.AppendMissingOrder | scripts/labeler_app.py:962-964 | the appended ids appear in their current sort order |
| LabelerSession.ReconciledSpec | scripts/labeler_app.py:959-969 | the reconciled queue is non-empty and holds exactly the current ids; on reset it equals them; otherwise the surviving old ids come first, in their old relative order, followed by the new ids in sort order; no duplicates |
| LabelerSession.NavigationBounds | scripts/labeler_app.py:1751-1754 | Skip/Save move to idx+1 or stay on the last item, Prev moves to max(idx-1, 0), and both stay inside the queue |
| LabelerSession.ReviewCheck | scripts/labeler_app.py:1758-1770 | a save passes the check iff it is not in review mode, or the review status is agree/disagree and the notes are not blank |
| LabelerSession.Session.Refresh | scripts/labeler_app.py:948-978 | an empty filter result stops the run with the state unchanged; otherwise the queue is reconciled, reset is cleared, the current request is kept if still queued (else the first), and idx is its index |
| LabelerSession.Session.Prev | scripts/labeler_app.py:1751-1756 | Prev moves to max(idx-1, 0) and makes that entry current; nothing else changes |
| LabelerSession.Session.Skip | scripts/labeler_app.py:1831-1837 | Skip moves to the next position of the current request, or stays on the last; nothing else changes |
| LabelerSession.Session.Save | scripts/labeler_app.py:1757-1830 | a failed review check or a failed store write changes nothing; a successful save appends the payload, records the undo context (label id, request, previous idx, non-empty prefill) and advances as Skip does |
| LabelerSession.Session.Undo | scripts/labeler_app.py:717-738 | undo applies iff a context with a label id exists and the delete succeeds; then the label is removed, the context cleared, idx and queue_search set from it, and a non-empty previous prefill restored; otherwise nothing changes |
| LabelerSession.Session.Dismiss | scripts/labeler_app.py:739-745 | dismissing clears the undo context and nothing else |
| LabelerSession.Session.LogOut | scripts/labeler_app.py:747-751 | logging out clears the undo context and the prefill and nothing else |
| LabelerSession.Session.JumpTo | scripts/labeler_app.py:835-843 | loading one of my labels sets the prefill (or {}), queue_search and the current request to its request, the filter to "all", clears undo and sets reset |
| LabelerSession.Session.ResetQueue | scripts/labeler_app.py:901-902 | the reset button sets only the reset flag |
| LabelerSession.Session.TakePrefill | scripts/labeler_app.py:1225-1228 | the form's prefill is the pending one, else my latest label, falling back in review mode to the other annotator's label; the pending prefill is consumed |
| LabelerSession.UndoRestoresStore | scripts/labeler_app.py:1812-1819 | undoing the label a save just wrote restores the store to its state before the save |
| LabelerDisplay.ResolvePriorityText | scripts/labeler_app.py:1279-1286 | the label resolved from a string is always one of High, Medium, Low |
| LabelerDisplay.ResolvePriorityLabel | scripts/labeler_app.py:1276-1286 | the resolved label is always one of High, Medium, Low |
| LabelerDisplay.OptionStorage | scripts/labeler_app.py:131-132 | every option's storage value is a stored priority, and title-casing it gives the option back |
| LabelerDisplay.ResolvePriorityRoundTrip | scripts/labeler_app.py:1276-1286 | resolving PRIORITY_STORAGE[x], or any string that strips and lowercases to it, gives x back |
| LabelerDisplay.ResolvePriorityLegacy | scripts/labeler_app.py:1284-1285 | a legacy value p1/p2/p3/p4 (after strip and lower) resolves to High/High/Medium/Low |
| LabelerDisplay.ResolvePriorityDefault | scripts/labeler_app.py:1276-1286 | None, and every value that is neither stored nor legacy, resolves to "Medium" |
| LabelerDisplay.GoaWindowValuesAreKeys | scripts/labeler_app.py:140-148 | GOA_WINDOW_VALUES lists the option keys in order, so it is the key set of GOA_WINDOW_LABELS |
| LabelerDisplay.GoaWindowLabelOf | scripts/labeler_app.py:148 | a stored label exists iff the key is a GOA window value |
| LabelerDisplay.ResolveGoaWindow | scripts/labeler_app.py:243-249 | the resolved window is always a GOA window value; the identical copy in export_labels.py (lines 139-145, same keys) is modelled by this one function |
| LabelerDisplay.ResolveString | scripts/labeler_app.py:244-249 | a string goa_window resolves to its stripped, lowercased form when that is a window value, else to "unknown" |
| LabelerDisplay.ResolveGoaWindowDefault | scripts/labeler_app.py:244-249 | features that are not a dict, or whose goa_window is not a string, resolve to "unknown" |
| LabelerDisplay.ResolveStored | scripts/labeler_app.py:243-249 | a stored window value resolves to itself |
| LabelerDisplay.ResolveGoaWindowIdempotent | scripts/labeler_app.py:243-249 | resolving the resolved value again gives the same value |
| LabelerDisplay.GoaWindowLabel | scripts/labeler_app.py:252-254 | a value that normalises to a window key is shown with that key's label |
| LabelerDisplay.GoaLabelOfResolved | scripts/labeler_app.py:243-254 | every resolved window has a label, and goa_window_label shows it |
| LabelerDisplay.OutcomeDisplay | scripts/labeler_app.py:220-222 | a missing or empty outcome is shown as a dash |
| LabelerDisplay.OutcomeDisplayKnown | scripts/labeler_app.py:223-225 | each listed outcome key is shown with its label |
| LabelerDisplay.OutcomeDisplayUnknown | scripts/labeler_app.py:226 | an unlisted outcome is title-cased with underscores replaced, keeping its length |
| LabelerDisplay.FollowUpDisplay | scripts/labeler_app.py:229-240 | no follow-up gives a dash; otherwise the labels of the items joined by ", " |
| LabelerDisplay.FollowUpLabelSpec | scripts/labeler_app.py:233-239 | a listed follow-up key gets its label; any other item is shown as str(item) |
| LabelerDisplay.FollowUpKeysDistinct | scripts/labeler_app.py:181-189 | the follow-up keys are distinct, so the inner loop's first match is the only one |
| LabelerDisplay.NumPeopleBinIndex | scripts/labeler_app.py:573-584 | the people count falls in one of the people bins |
| LabelerDisplay.SizeFeetBinIndex | scripts/labeler_app.py:586-597 | the footprint falls in one of the footprint bins |
| LabelerDisplay.BinsMonotone | scripts/labeler_app.py:573-597 | a larger count never falls in an earlier bin, for people and for feet |
| LabelerDisplay.TentsDefaultOfBool | scripts/labeler_app.py:599-603 | a bool tents tag gives 1 or 0 through the numeric branch |
| LabelerDisplay.DropNones | scripts/labeler_app.py:605 | the comprehension keeps only entries that are not None, and every kept entry comes from the input |
| LabelerDisplay.RecordFeatureDefaultsShape | scripts/labeler_app.py:555-605 | the defaults hold no None value and only feature keys |
| LabelerDisplay.RecordFeatureDefaultsGet | scripts/labeler_app.py:561-605 | each feature key holds its computed default, or is absent when that default is None |
| LabelerDisplay.RecordFeatureDefaultsFlags | scripts/labeler_app.py:562-570 | lying_face_down is whether the tag is exactly True; blocking is absent iff kw_blocking is None, else its truth value; a truthy propane or fire keyword gives propane_or_flame True |
| LabelerDisplay.LyingDefault | scripts/labeler_app.py:562 | lying_face_down is whether tag_lying_face_down is exactly True |
| LabelerDisplay.BlockingDefault | scripts/labeler_app.py:565 | blocking is bool_default of kw_blocking |
| LabelerDisplay.PropaneDefault | scripts/labeler_app.py:567-568 | propane_or_flame is bool_default of kw_propane or, when that is falsy, of kw_fire |
| LabelerDisplay.RecordFeatureDefaultsBins | scripts/labeler_app.py:573-603 | the people bin, footprint bin and tents count are present iff their tag is a number; a tents count is a non-negative int |
| LabelerDisplay.ImageEntries | scripts/labeler_app.py:489-503 | the first n urls give n entries unless one of them raises |
| LabelerDisplay.ResolveImages | scripts/labeler_app.py:484-504 | the loop computes exactly the resolved image list |
| LabelerDisplay.ImageEntriesShape | scripts/labeler_app.py:490-503 | each entry has keys url, local_path, checksum, status in that order, and carries its url |
| LabelerDisplay.ResolvedImagesSpec | scripts/labeler_app.py:484-504 | one entry per url, in order, each with the four keys; no urls give an empty list |
| LabelerDisplay.ImageEntryDefaults | scripts/labeler_app.py:491-501 | a missing checksum or status gives None; a falsy path gives no local path |
| LabelerDisplay.OtherContext | scripts/labeler_app.py:512-523 | the non-photo part of the score lies in [0, 6.5] |
| LabelerDisplay.PhotoContext | scripts/labeler_app.py:509-511 | the photo part of the score lies in [0, 9] |
| LabelerDisplay.RichContextScore | scripts/labeler_app.py:507-524 | the score lies in [0, 15.5], and without a photo in [0, 6.5] |
| LabelerDisplay.OtherContextIgnoresImages | scripts/labeler_app.py:512-523 | changing image_urls leaves the non-photo part unchanged |
| LabelerDisplay.OtherContextIgnores | scripts/labeler_app.py:512-523 | the non-photo part depends on no field outside the six it reads |
| LabelerDisplay.OtherContextReadsFields | scripts/labeler_app.py:512-523 | records that agree on the six context fields get the same non-photo part |
| LabelerDisplay.PhotoContextOfList | scripts/labeler_app.py:509-511 | with a photo, the photo part is 1.5 times min(len(image_urls), 6) |
| LabelerDisplay.RichContextScoreImages | scripts/labeler_app.py:509-511 | more images never lower the score, and beyond six they no longer raise it |
| LabelerDisplay.StatusBadge | scripts/labeler_app.py:527-534 | the badge is a circle, a space and the title-cased status; red iff the status is closed, green iff active, yellow otherwise |
| LabelerDisplay.BadgeColourOfTitle | scripts/labeler_app.py:530-534 | title-casing the status does not change the badge colour |
| LabelerDisplay.StatusTextMissing | scripts/labeler_app.py:528 | a missing or falsy status is read as "Unknown" |
| LabelerDisplay.StatusBadgeMissing | scripts/labeler_app.py:528-534 | a missing or falsy status shows the yellow "Unknown" badge |
| LabelerDisplay.UnknownIsNeutral | scripts/labeler_app.py:529-534 | "Unknown" is neither a closed nor an active state |
| LabelerDisplay.NoteText | scripts/labeler_app.py:548 | the stripped note with newlines replaced contains no newline |
| LabelerDisplay.TruncateNote | scripts/labeler_app.py:549-550 | the shown note is at most 120 characters; a short note is unchanged; a long note becomes a prefix of itself followed by an ellipsis |
| LabelerDisplay.NoteSuffix | scripts/labeler_app.py:546-551 | without a truthy status or resolution note there is no suffix; a truthy note that is not a string raises |
| Sf311Transform.ToBool | scripts/sf311_transform.py:111-121 | bools pass through; None gives None; other values give True or False exactly when str(x) stripped and lowercased is a true or false word |
| Sf311Transform.WordTruth | scripts/sf311_transform.py:117-120 | a word maps to True iff it is a listed true word, to False iff it is a listed false word |
| Sf311Transform.WordsDisjoint | scripts/sf311_transform.py:117-120 | no word is both a true and a false word |
| Sf311Transform.ToBoolIntegers | scripts/sf311_transform.py:116-120 | the integers 1 and 0 map to True and False |
| Sf311Transform.ToBoolFloatOne | scripts/sf311_transform.py:116-121 | 1.0 is not recognised, since str(1.0) is "1.0" |
| Sf311Transform.ToBoolNormalised | scripts/sf311_transform.py:116 | to_bool of a string equals to_bool of its stripped, lowercased form |
| Sf311Transform.ToBoolWords | scripts/sf311_transform.py:117-120 | each listed word maps to its value |
| Sf311Transform.ToNum | scripts/sf311_transform.py:124-130 | None gives None; numbers give themselves; anything else goes to the number search on str(x) |
| Sf311Transform.ParseDt | scripts/sf311_transform.py:133-143 | a falsy value gives None; otherwise the format search on str(x) |
| Sf311Transform.HasPhotoIff | scripts/sf311_transform.py:146-153 | has_photo holds iff some PHOTO_KEYS field holds a non-empty list or a non-blank string |
| Sf311Transform.HasPhotoIgnoresOtherFields | scripts/sf311_transform.py:146-153 | setting a field outside PHOTO_KEYS does not change has_photo |
| Sf311Transform.FeatKeysNamed | scripts/sf311_transform.py:156-164 | the feature keys are desc_len and then kw_ plus each keyword, all distinct |
| Sf311Transform.KeywordsDistinct | scripts/sf311_transform.py:29-42 | the keyword names are distinct |
| Sf311Transform.TextFeats | scripts/sf311_transform.py:156-164 | one feature per key |
| Sf311Transform.ExtractTextFeats | scripts/sf311_transform.py:156-164 | the loop computes exactly the feature dictionary |
| Sf311Transform.TextFeatsKeys | scripts/sf311_transform.py:156-164 | the keys are the same for empty and non-empty text: desc_len and the keyword flags, in order |
| Sf311Transform.TextFeatsGet | scripts/sf311_transform.py:161-163 | desc_len is the text's length, and each flag is whether the text is non-empty and its pattern matches |
| Sf311Transform.TextFeatsEmpty | scripts/sf311_transform.py:157-160 | empty text gives desc_len 0 and every flag False |
| Sf311Transform.Head | scripts/sf311_transform.py:171-184 | the leading part of the output has exactly the keys request_id through text, in order |
| Sf311Transform.Tail | scripts/sf311_transform.py:186-197 | the trailing part has exactly the tag keys and derived_is_private_property, in order |
| Sf311Transform.Base | scripts/sf311_transform.py:171-198 | the unclipped output has exactly the thirty output keys, in order |
| Sf311Transform.Clip | scripts/sf311_transform.py:200-205 | max(0, min(x, hi)) is non-negative, at most hi when hi is non-negative, x inside the range, 0 below it, hi above it |
| Sf311Transform.ClipField | scripts/sf311_transform.py:200-205 | clipping one field keeps every other field and the key order, leaves None alone and clips a number |
| Sf311Transform.NormalizeRecord | scripts/sf311_transform.py:167-206 | building the record and overwriting the two clipped fields in place gives exactly the normalised record |
| Sf311Transform.NormalizedFails | scripts/sf311_transform.py:168-169 | normalize_record raises iff homeless_tags is truthy but not a dict, or description is truthy but not a string |
| Sf311Transform.NormalizedIsClippedBase | scripts/sf311_transform.py:199-205 | a successful result is the unclipped record with tag_size_feet clipped to size_max and then tag_num_people clipped to 25 |
| Sf311Transform.OutKeysDistinct | scripts/sf311_transform.py:171-198 | the thirty output keys are distinct |
| Sf311Transform.NormalizedKeys | scripts/sf311_transform.py:171-206 | the normalised record has exactly the thirty output keys, in order |
| Sf311Transform.NormalizedGet | scripts/sf311_transform.py:171-198 | every unclipped field holds the value mapped for it |
| Sf311Transform.NormalizedClipped | scripts/sf311_transform.py:195-205 | tag_size_feet and tag_num_people are None when to_num finds nothing, else the clipped number |
| Sf311Transform.NormalizedBounds | scripts/sf311_transform.py:199-205 | when present, tag_size_feet lies in [0, size_max] and tag_num_people in [0, 25] |
| Sf311Transform.NormalizedText | scripts/sf311_transform.py:169-184 | text is None iff the stripped description is empty, else that stripped text |
| Sf311Transform.NormalizedRequestId | scripts/sf311_transform.py:172 | request_id is service_request_id, or id when that is falsy |
| Sf311Transform.NormalizedFlags | scripts/sf311_transform.py:170-185 | each kw_ flag of the record is whether its pattern matches the non-empty text |
| Sf311Transform.NormalizedDerived | scripts/sf311_transform.py:197 | derived_is_private_property equals kw_private_property |
| Sf311Eval.ContainsPattern | scripts/sf311_eval.py:41-42 | falsy text gives False; a string gives whether it is non-empty and the pattern matches; truthy text that is not a string raises |
| Sf311Eval.CheckFlag | scripts/sf311_eval.py:45-57 | a flag check passes iff the flag's truthiness equals the pattern result, and raises iff the search does |
| Sf311Eval.HasLying | scripts/sf311_eval.py:62 | "lying" in pos is substring, element or key membership by type, and raises for other types |
| Sf311Eval.CheckLying | scripts/sf311_eval.py:60-65 | the check fails only when the position mentions "lying" and tag_lying_face_down is neither True nor None |
| Sf311Eval.LyingOnNormalised | scripts/sf311_eval.py:60-65 | on a normalised record, the check fails iff the position contains "lying" and the tag is exactly False |
| Sf311Eval.Positive | scripts/sf311_eval.py:70 | `v > 0` succeeds iff v is a number, and is its positivity |
| Sf311Eval.CheckTentsSize | scripts/sf311_eval.py:68-71 | the check fails iff tents are True and a present numeric size is at most 0; a present non-numeric size raises |
| Sf311Eval.InBounds | scripts/sf311_eval.py:74-81 | None passes; a number passes iff it lies in [0, hi]; anything else raises |
| Sf311Eval.TestNamesDistinct | scripts/sf311_eval.py:84-92 | the seven test names are distinct |
| Sf311Eval.Snippet | scripts/sf311_eval.py:114 | the snippet (text or "")[:160] exists for falsy text, strings and lists, and has at most 160 elements |
| Sf311Eval.ExampleOf | scripts/sf311_eval.py:111-125 | building an example raises iff the snippet does; otherwise it carries the snippet |
| Sf311Eval.ExamplesFailure | scripts/sf311_eval.py:110-125 | collecting examples raises iff some shown failure's example raises |
| Sf311Eval.TallyStep | scripts/sf311_eval.py:100-125 | one more record keeps the tally of a test exact: the total grows by one, passes by one iff the record passes, and a failing record is added to the examples while fewer than k are shown, or raises if its example does |
| Sf311Eval.TallyRecord | scripts/sf311_eval.py:100-125 | the inner loop over the tests tallies one more record for every test, or reports a crash on a test whose examples raise |
| Sf311Eval.RunChecks | scripts/sf311_eval.py:95-133 | the run succeeds iff no shown failure raises; then every test has total len(records), its passes count, a pass rate from them and its first k failing examples |
| Sf311Eval.ByName | scripts/sf311_eval.py:96-98 | the per-test dict has exactly the test names as keys, each with its value |
| Sf311Eval.MakeReport | scripts/sf311_eval.py:126-133 | the report's four dicts have the test names as keys and carry the counters |
| Sf311Eval.PassesAndFailures | scripts/sf311_eval.py:102-109 | passes plus failures equal the total, and a check that raises counts as a failure |
| Sf311Eval.ExamplesBounded | scripts/sf311_eval.py:110-114 | at most k_examples examples per test, all from failing records, each snippet at most 160 characters |
| Sf311Eval.PassRateRange | scripts/sf311_eval.py:129-131 | the pass rate is None iff the total is 0, otherwise in [0, 1] |
| Sf311Eval.ClippedPassesBounds | scripts/sf311_eval.py:74-81 | a record whose size and people counts are absent or inside their bounds passes both bounds checks |
| Sf311Eval.NormalizedPassesBounds | scripts/sf311_eval.py:74-81 | with size_max 400, every normalised record passes both bounds checks |
| Sf311Eval.NormalizedFlagAgrees | scripts/sf311_eval.py:45-52 | a normalised record's keyword flag agrees with the check's own pattern search |
| Sf311Eval.NormalizedPassesKeywordChecks | scripts/sf311_eval.py:45-57 | every normalised record passes the passed-out, blocking and private-property checks, whose patterns are the transform's |
| ExportLabels.Page | scripts/export_labels.py:116-120 | a page within the table is not empty and no longer than the table |
| ExportLabels.FetchLabels | scripts/export_labels.py:110-128 | for a static table and chunk at least 1, the loop yields exactly the visible rows in order; the k-th request covers [k·c, k·c+c−1]; it makes one request more than the full pages |
| ExportLabels.FeaturesOf | scripts/export_labels.py:149-154 | features that are a JSON string failing to parse become {}; a dict is used as is |
| ExportLabels.FollowUpItems | scripts/export_labels.py:155-159 | a string follow-up becomes a one-element list; a list stays; anything else becomes empty |
| ExportLabels.JoinStrings | scripts/export_labels.py:194 | the join succeeds iff every item is a string, and then joins them with the separator |
| ExportLabels.Observed | scripts/export_labels.py:173 | the observed conditions are no more than the options |
| ExportLabels.ObservedSpec | scripts/export_labels.py:163-173 | an option's label is listed iff its feature is truthy, in the options' order |
| ExportLabels.FlatFields | scripts/export_labels.py:178-199 | the flattened row's keys are exactly the CSV columns, in order |
| ExportLabels.FlattenRowKeys | scripts/export_labels.py:178-199 | when flatten_row succeeds, its keys are exactly the write_csv columns in the same order |
| ExportLabels.FlattenRowFails | scripts/export_labels.py:148-199 | flatten_row raises iff the features cannot be read as a dict or a follow-up item is not a string |
| ExportLabels.FlattenRowFields | scripts/export_labels.py:155-194 | when flatten_row succeeds, goa_window is the resolved window (one of the GOA window values) and goa_window_label its stored label; observed_conditions is the ";"-join of the labels of the truthy conditions, in option order; follow_up_need is the ";"-join of the follow-up items |
| ExportLabels.FlattenRowCopiesRow | scripts/export_labels.py:179-184 | when flatten_row succeeds, label_id, request_id, annotator_uid, annotator_email, role and priority are the row's own values |
| ExportLabels.FlattenRowCopiesFeatures | scripts/export_labels.py:185-191 | when flatten_row succeeds, tents_count, routing_department, routing_other, num_people_bin and size_feet_bin are the features' own values |
| ExportLabels.FlattenRowCopiesReview | scripts/export_labels.py:193-198 | when flatten_row succeeds, outcome_alignment, notes, review_status, review_notes and timestamp are the row's own values |
| ExportLabels.CsvColumnsDistinct | scripts/export_labels.py:213-234 | the twenty columns are distinct |
| ExportLabels.CsvCell | scripts/export_labels.py:244 | a string is written as itself and None as the empty cell |
| ExportLabels.CsvRecord | scripts/export_labels.py:244 | writerow succeeds iff the row has no key outside the columns, and writes one cell per column, in column order |
| ExportLabels.CsvRecordsSpec | scripts/export_labels.py:243-244 | writing all rows succeeds iff each row can be written, each giving its own record |
| ExportLabels.WriteCsv | scripts/export_labels.py:235-244 | no rows write no file; otherwise the first record is the header |
| ExportLabels.ColumnRowsWrite | scripts/export_labels.py:235-244 | rows keyed exactly by the columns always write: the header and then each row's values in column order |
| ExportLabels.FlattenedRowsWrite | scripts/export_labels.py:212-244 | flattened rows always write: a header and then, per row, its twenty values in column order |
| FetchImages.RStripSlash | scripts/fetch_images.py:73 | rstrip("/") removes exactly the trailing slashes |
| FetchImages.Basename | scripts/fetch_images.py:73 | the basename is the slash-free suffix after the last slash |
| FetchImages.FilenameShape | scripts/fetch_images.py:71-76 | the file name is the two-digit index, "_" and a slash-free name: the basename of the path without trailing slashes, or image_NN.jpg when that is empty |
| FetchImages.NameEmptyIffSlashes | scripts/fetch_images.py:73-75 | the basename is empty iff the path consists of slashes only |
| FetchImages.FilenameIndexInjective | scripts/fetch_images.py:71-76 | two urls with equal file names have the same index |
| FetchImages.LineSkipped | scripts/fetch_images.py:53-62 | a manifest line is skipped iff it is blank, does not decode, or has no truthy url |
| FetchImages.LineEntries | scripts/fetch_images.py:52-63 | one decision per manifest line, in order |
| FetchImages.LoadManifest | scripts/fetch_images.py:47-64 | the loop computes exactly the manifest of the file; a missing file gives {} |
| FetchImages.ManifestFails | scripts/fetch_images.py:56-63 | loading raises iff some line raises |
| FetchImages.ManifestHas | scripts/fetch_images.py:60-63 | a url is in the manifest iff some line records it |
| FetchImages.ManifestLastWins | scripts/fetch_images.py:60-63 | a url's manifest entry is the last line that records it |
| FetchImages.SkipIff | scripts/fetch_images.py:115-126 | without an entry, or with rewrite on, nothing is skipped; a url is skipped iff its entry is non-empty, rewrite is off, the status is "ok", and the recorded local_path is a string naming an existing file equal to the target; a non-string local_path raises, and so does a missing one when the empty path exists |
| FetchImages.UrlJobParts | scripts/fetch_images.py:109-127 | one decision per url of a row, in order |
| FetchImages.RowParts | scripts/fetch_images.py:102-127 | one decision per input row, in order |
| FetchImages.CollectJobs | scripts/fetch_images.py:101-127 | the loop over the rows computes exactly the job list |
| FetchImages.RowImageJobs | scripts/fetch_images.py:109-127 | the loop over a row's urls computes exactly its jobs |
| FetchImages.UrlJobShape | scripts/fetch_images.py:109-127 | a url yields a job iff it is a non-blank string, the job carries the stripped url and its target path, and the url is not skipped |
| FetchImages.JobOrigin | scripts/fetch_images.py:101-127 | every job comes from one url of one row |
| FetchImages.JobComplete | scripts/fetch_images.py:101-127 | every url that qualifies gives a job in the list |
| FetchImages.RowWithoutJobs | scripts/fetch_images.py:103-106 | a row without a request_id, or with non-list image_urls, adds no jobs |
| FetchImages.Downloads | scripts/fetch_images.py:136-158 | one manifest entry per job |
| FetchImages.EntryStatus | scripts/fetch_images.py:144-151 | an entry's status is "ok" iff its download succeeded |
| FetchImages.DownloadTally | scripts/fetch_images.py:164-168 | the ok count is the number of successful downloads, the error count the number of failed ones, and together they are the number of entries |
| GoaResolution.StatusOrderLabels | scripts/goa_resolution_analysis.py:18-24 | STATUS_ORDER lists the five bucket names once each |
| GoaResolution.LabelInjective | scripts/goa_resolution_analysis.py:18-24 | distinct buckets have distinct names |
| GoaResolution.BucketStatus | scripts/goa_resolution_analysis.py:41-52 | every result is in STATUS_ORDER |
| GoaResolution.ClassifyRules | scripts/goa_resolution_analysis.py:41-52 | "open" status (stripped, lowercased) gives Open whatever the note; else a blank note gives Unknown; else "unable to locate" or "goa" gives Unable to Locate, ahead of "case resolved" as a prefix (Case Resolved); otherwise Other Closed Notes |
| GoaResolution.DecideRules | scripts/goa_resolution_analysis.py:44-52 | the shared decision list picks each bucket exactly under its condition |
| GoaResolution.LowerLePreorder | scripts/goa_resolution_analysis.py:117-120 | comparing by str.lower is a total preorder |
| GoaResolution.KnownFirstSpec | scripts/goa_resolution_analysis.py:116-121 | the ordering is a duplicate-free permutation: the known buckets present, in known order, then the others sorted case-insensitively |
| GoaResolution.KnownFirstPermutation | scripts/goa_resolution_analysis.py:116-121 | the ordered categories are a permutation of the present buckets, each at most once |
| GoaResolution.OrderedCategoriesSpec | scripts/goa_resolution_analysis.py:116-121 | the same, for STATUS_ORDER |
| GoaPhoto.PhotoBucketStatus | scripts/goa_photo_analysis.py:53-64 | every result is in STATUS_ORDER |
| GoaPhoto.PhotoClassifyRules | scripts/goa_photo_analysis.py:53-64 | the decision list on the lowercased, unstripped status and note: only a status exactly "open" gives Open; a whitespace-only note gives Unknown; then the "unable to locate"/"goa" substring, then the "case resolved" prefix on the unstripped note |
| GoaPhoto.BucketsAgreeOnTrimmed | scripts/goa_photo_analysis.py:53-64 | on already stripped inputs the two bucket_status variants agree |
| GoaPhoto.BucketsDifferOnPadding | scripts/goa_photo_analysis.py:54-57 | a padded "open" status is Open for the resolution analysis but not for the photo analysis |
| GoaPhoto.FirstShare | scripts/goa_photo_analysis.py:150-159 | the share is that of the first matching row, or 0.0 when none matches |
| GoaPhoto.StatusTableLines | scripts/goa_photo_analysis.py:148-160 | two header lines and one line per bucket |
| GoaPhoto.WriteStatusTableMd | scripts/goa_photo_analysis.py:147-161 | the loop computes exactly the table lines joined by newlines |
| GoaPhoto.StatusTableShape | scripts/goa_photo_analysis.py:147-161 | read back by lines, the text has the two header lines and then one row per STATUS_ORDER bucket, in order, each starting with its bucket |
| GoaReport.RowCells | scripts/goa_report.py:82-88 | one cell per header |
| GoaReport.MarkdownLines | scripts/goa_report.py:79-89 | len(rows) + 2 lines |
| GoaReport.DfToMarkdownTable | scripts/goa_report.py:76-90 | the nested loops compute exactly the lines joined by newlines |
| GoaReport.HeaderLineCells | scripts/goa_report.py:79 | the header line split at "\|" has one framed cell per header, in order |
| GoaReport.RuleLineCells | scripts/goa_report.py:80 | the rule line has one "---" cell per header |
| GoaReport.DataLineCells | scripts/goa_report.py:81-89 | a data line has one framed cell per header, in header order: two-decimal format for a present float cell, str(val) otherwise |
| GoaReport.TableLinesReadBack | scripts/goa_report.py:76-90 | read back by lines, the text is the header line, the rule line and one line per row |

## Left out

- The Streamlit interface is not modelled: widgets, layout, hotkeys, tabs, dataframes, images and
  the glossary. Button presses become calls to the `Session` methods.
- Supabase and the network are external I/O. `load_labels_supabase`, `get_supabase_client`,
  `init_client` and `create_client` are not modelled. The label table becomes a sequence of rows, and
  each insert or delete receives its success as an argument.
- `get_secret`, environment variables and TOML secrets are configuration I/O.
- `hash_password` and `user_random_value` use SHA-256. They are functions passed in as parameters.
- `parse_iso`, `parse_created_at`, `parse_dt`'s formats and `format_timestamp` are datetime parsing.
  The model uses abstract ordered stamps and parser parameters.
- `to_num`'s regex search and float conversion, `format_duration_hours`, and the `:.1f`/`:.2f`
  formatting are parameters. Floating-point values are exact `real`s.
- The pandas, matplotlib and statsmodels analyses are not modelled. This covers the quantiles and
  share computation in `compute_summary`, `compute_resolution_frame`, the plots and summaries.
- Regex evaluation (`KEYWORDS`, `RE_*`) is a match predicate passed in as a parameter. The eval
  patterns are the transform's patterns, so both use the same predicate.
- JSON decoding is a parameter. This covers `load_records`, `load_rows`, `coerce_features`,
  `read_jsonl` and the manifest lines.
- The `ThreadPoolExecutor`/`urlopen` workers are concurrent network code. Each fetch outcome is a
  parameter, and the manifest entries are listed in job order, not in completion order.
- Appending to the manifest file and the JSONL/CSV files is file I/O. The CSV text is modelled as
  records of cells, not quoted text.
- The filesystem is not modelled: paths, `mkdir`, `Path.exists` and `Path` equality are parameters.
  `rel_to_docs` is left out for the same reason.
- Scripts outside the modelled core are left out: parse_txt.py and scripts/sf311_audit.py (text
  dumps and audits), scripts/goa_prepare.py (pandas printing and I/O), scripts/goa_labels.py
  (constants only) and streamlit_app.py (entrypoint only).
- The test files expect things the code does not do. They expect "needs_review" for a single label,
  for a priority mismatch and for `review_status == "disagree"`. They call `passes_minimal_filters`,
  `suggest_outcome` and a three-argument `normalize_record`. None of this is encoded.
- `latest_label_excluding`, imported by labeler_app.py, is not defined in labeler_utils.py. Review
  mode is therefore an input: `Session.Save` and `Session.TakePrefill` take it, and the other
  annotator's label, as arguments.
- The second argument that labeler_app.py passes to `request_status` is ignored, since the
  definition takes one argument.
- LabelerSession.Session.Save: the payload is the form's fields plus label_id, request_id, the
  revision reference, the review status and the review notes. It does not model the annotator
  fields, the uuid or the clock, which are parameters or left out.
- LabelerQueue.RecommendedOrder: this row states only the status and photo keys in its order
  clause. The other three keys are proved as part of the total preorder in
  `LabelerQueue.RecommendedLePreorder`.
- ExportLabels.FlatFields: the timezone conversion of a `datetime` timestamp is left out, because
  rows arrive as JSON and carry strings.
- Sf311Transform.ToNum: the regex-plus-float branch is a parameter, as above.
- Strings.Lower, Strings.Title: only ASCII letters are case-mapped; other characters are kept as
  they are, where Python's `str.lower`/`str.title` map every cased Unicode letter and can change the
  length ("ß".title() is "Ss"). What the members built on them prove (KeepRow, StatusBadge,
  OutcomeDisplay, OutcomeDisplayUnknown, ResolvePriorityLabel, ResolveGoaWindow, ToBool, Classify,
  PhotoClassify, LowerLe, ExportGoaLabel) holds for this mapping, and every length fact about a
  lower-cased or title-cased string holds only for it.
- LabelerQueue.KeepRow: the search matches case-insensitively on ASCII letters only; a query whose
  non-ASCII letters differ in case from the text ("état" against "ÉTAT") does not match, where
  Python's `lower` would make it match.
- LabelerDisplay.OutcomeDisplayUnknown: the title text and "keeping its length" hold for the
  ASCII title-casing of `Strings.Title` only, not for Unicode title-casing.
- LabelerDisplay.StatusBadge: the colour rules are exact; the badge text and `|r| == 2 + |status|`
  hold for the ASCII title-casing only ("straße" gives "StraßE", where Python gives "Straße").
- Sf311Eval.RunChecks, Sf311Eval.MakeReport: the four report dicts are Dafny maps, so the key order
  that `json.dumps` writes (the order of the test list) is not modelled.
