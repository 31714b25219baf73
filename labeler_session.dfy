/** The per-session state of scripts/labeler_app.py `main`: the queue order
    kept across reruns, the current request and its index, the single-level
    undo context and the label prefill; and the label store reached through
    save_label and delete_label. */
module LabelerSession {
  import opened PyData
  import opened Strings
  import opened Ordering

  // ---------------------------------------------------------------- label store

  function NotLabel(labelId: string): Dict -> bool
  {
    r => Get(r, "label_id") != VStr(labelId)
  }

  /** The stored labels after deleting the label with this id. */
  function WithoutLabel(rows: seq<Dict>, labelId: string): seq<Dict>
  {
    Filter(rows, NotLabel(labelId))
  }

  /** Deleting a freshly saved label gives back the store as it was before the save. */
  lemma SaveThenDeleteRestores(rows: seq<Dict>, payload: Dict, labelId: string)
    requires Get(payload, "label_id") == VStr(labelId)
    requires forall i :: 0 <= i < |rows| ==> Get(rows[i], "label_id") != VStr(labelId)
    ensures WithoutLabel(rows + [payload], labelId) == rows
  {
    FilterSnoc(rows, payload, NotLabel(labelId));
    FilterAll(rows, NotLabel(labelId));
  }

  /** Deleting removes every label with the id and keeps the others in order. */
  lemma WithoutLabelSpec(rows: seq<Dict>, labelId: string)
    ensures forall r :: r in WithoutLabel(rows, labelId) <==> r in rows && Get(r, "label_id") != VStr(labelId)
    ensures IsSubseq(WithoutLabel(rows, labelId), rows)
  {
    forall r ensures r in WithoutLabel(rows, labelId) <==> r in rows && Get(r, "label_id") != VStr(labelId) {
      FilterMembership(rows, NotLabel(labelId), r);
    }
    FilterIsSubseq(rows, NotLabel(labelId));
  }

  /** The labels table. Whether a remote call goes through is decided outside
      the program, so each call takes it as `ok`. */
  class LabelStore {
    var rows: seq<Dict>

    constructor (initial: seq<Dict>)
      ensures rows == initial
    {
      rows := initial;
    }

    /** save_label: insert the payload; False when the insert raises. */
    method Insert(payload: Dict, ok: bool) returns (saved: bool)
      modifies this
      ensures saved == ok
      ensures rows == if ok then old(rows) + [payload] else old(rows)
    {
      if ok {
        rows := rows + [payload];
      }
      saved := ok;
    }

    /** delete_label: delete the rows with the label id; False when the call raises. */
    method Delete(labelId: string, ok: bool) returns (deleted: bool)
      modifies this
      ensures deleted == ok
      ensures rows == if ok then WithoutLabel(old(rows), labelId) else old(rows)
    {
      if ok {
        rows := WithoutLabel(rows, labelId);
      }
      deleted := ok;
    }
  }

  // ---------------------------------------------------------------- queue reconciliation

  function InIds(ids: seq<string>): string -> bool
  {
    rid => rid in ids
  }

  /** queue_order with the ids that are no longer in the filtered rows dropped. */
  function KeepListed(queue: seq<string>, ids: seq<string>): seq<string>
  {
    Filter(queue, InIds(ids))
  }

  /** The loop `for rid in request_ids: if rid not in queue_order: queue_order.append(rid)`. */
  function AppendMissing(q: seq<string>, ids: seq<string>): seq<string>
    decreases |ids|
  {
    if ids == [] then q
    else
      var p := AppendMissing(q, ids[..|ids| - 1]);
      var x := ids[|ids| - 1];
      if x in p then p else p + [x]
  }

  /** The queue order after reconciliation: kept ids in their old order, then
      the new ids in the current sort order; the plain sorted ids after a
      reset or when nothing is left. */
  function Reconciled(queue: seq<string>, ids: seq<string>, reset: bool): seq<string>
  {
    var q := AppendMissing(KeepListed(queue, ids), ids);
    if q == [] || reset then ids else q
  }

  /** Appending keeps the old queue as a prefix and adds only ids missing from it. */
  lemma {:induction false} AppendMissingPrefix(q: seq<string>, ids: seq<string>)
    ensures var r := AppendMissing(q, ids);
      |q| <= |r| && r[..|q|] == q && (forall k :: |q| <= k < |r| ==> r[k] !in q)
    decreases |ids|
  {
    if ids != [] {
      AppendMissingPrefix(q, ids[..|ids| - 1]);
      var p := AppendMissing(q, ids[..|ids| - 1]);
      assert (p + [ids[|ids| - 1]])[..|q|] == p[..|q|];
    }
  }

  /** After appending, every id of the queue or of the list is there, and nothing else. */
  lemma {:induction false} AppendMissingMembers(q: seq<string>, ids: seq<string>)
    ensures forall x :: x in AppendMissing(q, ids) <==> x in q || x in ids
    decreases |ids|
  {
    if ids != [] {
      var init := ids[..|ids| - 1];
      AppendMissingMembers(q, init);
      assert ids == init + [ids[|ids| - 1]];
      assert forall y :: y in ids <==> y in init || y == ids[|ids| - 1];
    }
  }

  /** Appending only missing ids keeps the queue free of duplicates. */
  lemma {:induction false} AppendMissingNoDup(q: seq<string>, ids: seq<string>)
    requires NoDup(q)
    ensures NoDup(AppendMissing(q, ids))
    decreases |ids|
  {
    if ids != [] {
      AppendMissingNoDup(q, ids[..|ids| - 1]);
    }
  }

  /** The appended ids come in the order of the list. */
  lemma {:induction false} AppendMissingOrder(q: seq<string>, ids: seq<string>)
    ensures |q| <= |AppendMissing(q, ids)| && IsSubseq(AppendMissing(q, ids)[|q|..], ids)
    decreases |ids|
  {
    AppendMissingPrefix(q, ids);
    if ids != [] {
      var init := ids[..|ids| - 1];
      var x := ids[|ids| - 1];
      AppendMissingOrder(q, init);
      var p := AppendMissing(q, init);
      assert ids == init + [x];
      SubseqAppendLast(p[|q|..], init, x);
      if x !in p {
        assert (p + [x])[|q|..] == p[|q|..] + [x];
        SubseqSnocBoth(p[|q|..], init, x);
      }
    }
  }

  lemma {:induction false} SubseqAppendLast(a: seq<string>, b: seq<string>, x: string)
    requires IsSubseq(a, b)
    ensures IsSubseq(a, b + [x])
    decreases |b|
  {
    if a != [] && b != [] {
      assert (b + [x])[0] == b[0] && (b + [x])[1..] == b[1..] + [x];
      if a[0] == b[0] {
        SubseqAppendLast(a[1..], b[1..], x);
      } else {
        SubseqAppendLast(a, b[1..], x);
      }
    }
  }

  lemma {:induction false} SubseqSnocBoth(a: seq<string>, b: seq<string>, x: string)
    requires IsSubseq(a, b)
    ensures IsSubseq(a + [x], b + [x])
    decreases |b|
  {
    if a == [] {
      IsSubseqOfLast(b, x);
      assert a + [x] == [x];
    } else {
      assert b != [];
      assert (a + [x])[0] == a[0] && (a + [x])[1..] == a[1..] + [x];
      assert (b + [x])[0] == b[0] && (b + [x])[1..] == b[1..] + [x];
      if a[0] == b[0] {
        SubseqSnocBoth(a[1..], b[1..], x);
      } else {
        SubseqSnocBoth(a, b[1..], x);
      }
    }
  }

  lemma {:induction false} IsSubseqOfLast(b: seq<string>, x: string)
    ensures IsSubseq([x], b + [x])
    decreases |b|
  {
    if b != [] {
      assert (b + [x])[1..] == b[1..] + [x];
      IsSubseqOfLast(b[1..], x);
    }
  }

  /** After reconciliation the queue holds exactly the current ids; without a
      reset, the surviving ids keep their old relative order at the front and
      no id appears twice when neither list had duplicates; a reset gives the
      sorted ids. */
  lemma ReconciledSpec(queue: seq<string>, ids: seq<string>, reset: bool)
    requires ids != []
    ensures var r := Reconciled(queue, ids, reset);
      r != [] && (forall x :: x in r <==> x in ids)
      && (reset ==> r == ids)
      && (!reset ==> |KeepListed(queue, ids)| <= |r| && r[..|KeepListed(queue, ids)|] == KeepListed(queue, ids)
                     && IsSubseq(KeepListed(queue, ids), queue) && IsSubseq(r[|KeepListed(queue, ids)|..], ids))
      && (NoDup(queue) && NoDup(ids) ==> NoDup(r))
  {
    var kept := KeepListed(queue, ids);
    AppendMissingPrefix(kept, ids);
    AppendMissingMembers(kept, ids);
    AppendMissingOrder(kept, ids);
    forall x ensures x in kept ==> x in ids {
      FilterMembership(queue, InIds(ids), x);
    }
    FilterIsSubseq(queue, InIds(ids));
    if NoDup(queue) {
      FilterNoDup(queue, InIds(ids));
      AppendMissingNoDup(kept, ids);
    }
    assert ids[0] in AppendMissing(kept, ids);
  }

  // ---------------------------------------------------------------- navigation

  /** The index after Skip or a successful Save: the next item, or the last one again. */
  function NextIndex(pos: nat, n: nat): nat
  {
    if pos + 1 < n then pos + 1 else pos
  }

  /** The index after Prev: max(idx - 1, 0). */
  function PrevIndex(idx: int): int
  {
    if idx - 1 > 0 then idx - 1 else 0
  }

  lemma NavigationBounds(pos: nat, n: nat, idx: int)
    requires pos < n && 0 <= idx < n
    ensures NextIndex(pos, n) < n && (NextIndex(pos, n) == pos + 1 || NextIndex(pos, n) == n - 1)
    ensures 0 <= PrevIndex(idx) < n && PrevIndex(idx) <= idx
  {
  }

  // ---------------------------------------------------------------- save and undo

  datatype UndoContext = UndoContext(labelId: string, requestId: string, previousIdx: int, previousPrefill: Option<Dict>)

  datatype SaveOutcome = Rejected(reason: string) | Failed | Saved

  /** The review-mode check before a save: a decision, then non-blank notes. */
  function ReviewCheck(reviewMode: bool, reviewStatus: string, reviewNotes: string): (r: Option<string>)
    ensures r.None? <==> !reviewMode || (reviewStatus in ["agree", "disagree"] && Strip(reviewNotes) != "")
  {
    if reviewMode && reviewStatus !in ["agree", "disagree"] then Some("decision required")
    else if reviewMode && (reviewNotes == "" || Strip(reviewNotes) == "") then Some("notes required")
    else None
  }

  /** `deepcopy(prefill) if prefill else None` */
  function KeptPrefill(prefill: Option<Dict>): (r: Option<Dict>)
    ensures r.Some? ==> r.value != [] && r == prefill
  {
    if prefill.Some? && prefill.value != [] then prefill else None
  }

  /** The stored label: its id and request first, the form's fields in
      between, then the revised label's id and the review fields. */
  function Payload(labelId: string, requestId: string, form: Dict, prefill: Option<Dict>, reviewStatus: string, reviewNotes: string): (r: Dict)
    ensures Get(r, "label_id") == VStr(labelId)
    ensures |r| == |form| + 5
  {
    var notes := Strip(reviewNotes);
    [("label_id", VStr(labelId)), ("request_id", VStr(requestId))] + form
    + [("revision_of", if KeptPrefill(prefill).Some? then Get(prefill.value, "label_id") else VNone),
       ("review_status", VStr(reviewStatus)),
       ("review_notes", if notes != "" then VStr(notes) else VNone)]
  }

  /** st.session_state for one browser session. */
  class Session {
    var queueOrder: seq<string>
    var currentRequestId: Option<string>
    var idx: int
    var undoContext: Option<UndoContext>
    var prefill: Option<Dict>
    var queueSearch: string
    var reset: bool
    var statusFilter: string

    /** A fresh session: nothing queued, no current request. */
    constructor ()
      ensures queueOrder == [] && currentRequestId.None? && idx == 0
      ensures undoContext.None? && prefill.None? && queueSearch == "" && !reset && statusFilter == "unlabeled"
    {
      queueOrder := [];
      currentRequestId := None;
      idx := 0;
      undoContext := None;
      prefill := None;
      queueSearch := "";
      reset := false;
      statusFilter := "unlabeled";
    }

    /** The current request is in the queue at position idx. */
    predicate Positioned()
      reads this
    {
      currentRequestId.Some? && 0 <= idx < |queueOrder| && queueOrder[idx] == currentRequestId.value
    }

    /** One run of main over the sorted, filtered request ids: reconcile the
        queue order, fall back to its first id when the current request
        left it, and recompute idx from the current request. With no rows
        the run stops before any of this. */
    method Refresh(requestIds: seq<string>) returns (stopped: bool)
      modifies this
      ensures stopped <==> requestIds == []
      ensures stopped ==> queueOrder == old(queueOrder) && currentRequestId == old(currentRequestId) && idx == old(idx) && reset == old(reset)
      ensures !stopped ==> queueOrder == Reconciled(old(queueOrder), requestIds, old(reset)) && !reset
      ensures !stopped ==> (currentRequestId ==
        if old(currentRequestId).Some? && old(currentRequestId).value in queueOrder then old(currentRequestId) else Some(queueOrder[0]))
      ensures !stopped ==> Positioned() && idx == IndexOf(queueOrder, currentRequestId.value)
      ensures undoContext == old(undoContext) && prefill == old(prefill) && queueSearch == old(queueSearch) && statusFilter == old(statusFilter)
    {
      if requestIds == [] {
        return true;
      }
      var q := KeepListed(queueOrder, requestIds);
      var kept := q;
      for i := 0 to |requestIds|
        invariant q == AppendMissing(kept, requestIds[..i])
      {
        var rid := requestIds[i];
        assert requestIds[..i + 1][..i] == requestIds[..i];
        if rid !in q {
          q := q + [rid];
        }
      }
      assert requestIds[..|requestIds|] == requestIds;
      if q == [] || reset {
        q := requestIds;
      }
      ReconciledSpec(queueOrder, requestIds, reset);
      queueOrder := q;
      reset := false;
      if currentRequestId.None? || currentRequestId.value !in queueOrder {
        currentRequestId := Some(queueOrder[0]);
      }
      idx := IndexOf(queueOrder, currentRequestId.value);
      return false;
    }

    /** Prev: one step back, never before the first item. */
    method Prev()
      requires Positioned()
      modifies this
      ensures queueOrder == old(queueOrder) && Positioned()
      ensures idx == PrevIndex(old(idx)) && currentRequestId == Some(queueOrder[idx])
      ensures undoContext == old(undoContext) && prefill == old(prefill)
      ensures queueSearch == old(queueSearch) && reset == old(reset) && statusFilter == old(statusFilter)
    {
      var target := PrevIndex(idx);
      idx := target;
      currentRequestId := Some(queueOrder[target]);
    }

    /** Skip: the item after the current request's first position, or the
        last item again. */
    method Skip()
      requires Positioned()
      modifies this
      ensures queueOrder == old(queueOrder) && Positioned()
      ensures idx == NextIndex(IndexOf(queueOrder, old(currentRequestId).value), |queueOrder|)
      ensures currentRequestId == Some(queueOrder[idx])
      ensures undoContext == old(undoContext) && prefill == old(prefill)
      ensures queueSearch == old(queueSearch) && reset == old(reset) && statusFilter == old(statusFilter)
    {
      var pos := IndexOf(queueOrder, currentRequestId.value);
      var next := NextIndex(pos, |queueOrder|);
      idx := next;
      currentRequestId := Some(queueOrder[next]);
    }

    /** Save: in review mode a missing decision or blank notes stops the run
        with nothing written; otherwise the payload is inserted, and only when
        the insert succeeds is the undo context recorded and the queue
        advanced. */
    method Save(store: LabelStore, reviewMode: bool, reviewStatus: string, reviewNotes: string,
                labelId: string, form: Dict, localPrefill: Option<Dict>, ok: bool) returns (outcome: SaveOutcome)
      requires Positioned()
      modifies this, store
      ensures queueOrder == old(queueOrder) && prefill == old(prefill) && queueSearch == old(queueSearch)
        && reset == old(reset) && statusFilter == old(statusFilter)
      ensures Positioned()
      ensures outcome.Rejected? <==> ReviewCheck(reviewMode, reviewStatus, reviewNotes).Some?
      ensures outcome == Saved <==> ReviewCheck(reviewMode, reviewStatus, reviewNotes).None? && ok
      ensures outcome != Saved ==> (store.rows == old(store.rows) && undoContext == old(undoContext)
        && idx == old(idx) && currentRequestId == old(currentRequestId))
      ensures outcome == Saved ==>
        store.rows == old(store.rows) + [Payload(labelId, old(currentRequestId).value, form, localPrefill, reviewStatus, reviewNotes)]
      ensures outcome == Saved ==>
        undoContext == Some(UndoContext(labelId, old(currentRequestId).value, old(idx), KeptPrefill(localPrefill)))
      ensures outcome == Saved ==>
        idx == NextIndex(IndexOf(queueOrder, old(currentRequestId).value), |queueOrder|) && currentRequestId == Some(queueOrder[idx])
    {
      var check := ReviewCheck(reviewMode, reviewStatus, reviewNotes);
      if check.Some? {
        return Rejected(check.value);
      }
      var req := currentRequestId.value;
      var payload := Payload(labelId, req, form, localPrefill, reviewStatus, reviewNotes);
      var saved := store.Insert(payload, ok);
      if !saved {
        return Failed;
      }
      undoContext := Some(UndoContext(labelId, req, idx, KeptPrefill(localPrefill)));
      Skip();
      return Saved;
    }

    /** Undo last save: delete the saved label; only when that succeeds
        restore the earlier index and a non-empty earlier prefill, point the
        search at the request and clear the context. A failed delete keeps
        the context for another try. */
    method Undo(store: LabelStore, ok: bool) returns (undone: bool)
      modifies this, store
      ensures undone <==> old(undoContext).Some? && old(undoContext).value.labelId != "" && ok
      ensures !undone ==> (store.rows == old(store.rows) && undoContext == old(undoContext)
        && idx == old(idx) && prefill == old(prefill) && queueSearch == old(queueSearch))
      ensures undone ==>
        var ctx := old(undoContext).value;
        store.rows == WithoutLabel(old(store.rows), ctx.labelId)
        && undoContext.None? && idx == ctx.previousIdx && queueSearch == ctx.requestId
        && prefill == (if ctx.previousPrefill.Some? && ctx.previousPrefill.value != [] then ctx.previousPrefill else old(prefill))
      ensures queueOrder == old(queueOrder) && currentRequestId == old(currentRequestId)
        && reset == old(reset) && statusFilter == old(statusFilter)
    {
      if undoContext.None? {
        return false;
      }
      var ctx := undoContext.value;
      if ctx.labelId == "" {
        return false;
      }
      var deleted := store.Delete(ctx.labelId, ok);
      if !deleted {
        return false;
      }
      idx := ctx.previousIdx;
      if ctx.previousPrefill.Some? && ctx.previousPrefill.value != [] {
        prefill := ctx.previousPrefill;
      }
      queueSearch := ctx.requestId;
      undoContext := None;
      return true;
    }

    /** Dismiss: forget the undo context without deleting anything. */
    method Dismiss()
      modifies this
      ensures undoContext.None?
      ensures queueOrder == old(queueOrder) && currentRequestId == old(currentRequestId) && idx == old(idx)
        && prefill == old(prefill) && queueSearch == old(queueSearch) && reset == old(reset) && statusFilter == old(statusFilter)
    {
      undoContext := None;
    }

    /** Log out: drop the undo context and the prefill. */
    method LogOut()
      modifies this
      ensures undoContext.None? && prefill.None?
      ensures queueOrder == old(queueOrder) && currentRequestId == old(currentRequestId) && idx == old(idx)
        && queueSearch == old(queueSearch) && reset == old(reset) && statusFilter == old(statusFilter)
    {
      undoContext := None;
      prefill := None;
    }

    /** Load selected request: prefill the saved label, search for and select
        its request, show every status, drop the undo context and reset the
        queue on the next run. */
    method JumpTo(requestId: string, raw: Option<Dict>)
      modifies this
      ensures prefill == Some(if raw.Some? then raw.value else [])
      ensures queueSearch == requestId && currentRequestId == Some(requestId)
      ensures statusFilter == "all" && undoContext.None? && reset
      ensures queueOrder == old(queueOrder) && idx == old(idx)
    {
      prefill := Some(if raw.Some? then raw.value else []);
      queueSearch := requestId;
      currentRequestId := Some(requestId);
      statusFilter := "all";
      undoContext := None;
      reset := true;
    }

    /** Reset queue: the next run rebuilds the order from the sorted ids. */
    method ResetQueue()
      modifies this
      ensures reset
      ensures queueOrder == old(queueOrder) && currentRequestId == old(currentRequestId) && idx == old(idx)
        && undoContext == old(undoContext) && prefill == old(prefill) && queueSearch == old(queueSearch) && statusFilter == old(statusFilter)
    {
      reset := true;
    }

    /** The prefill used by the form: the stored one, taken out of the
        session, else the annotator's latest label, else in review mode the
        other annotator's latest label. */
    method TakePrefill(latestForUser: Option<Dict>, reviewMode: bool, latestOther: Option<Dict>) returns (used: Option<Dict>)
      modifies this
      ensures used == if old(prefill).Some? then old(prefill)
        else if latestForUser.None? && reviewMode && latestOther.Some? && latestOther.value != [] then latestOther
        else latestForUser
      ensures prefill.None?
      ensures queueOrder == old(queueOrder) && currentRequestId == old(currentRequestId) && idx == old(idx)
        && undoContext == old(undoContext) && queueSearch == old(queueSearch) && reset == old(reset) && statusFilter == old(statusFilter)
    {
      used := if prefill.Some? then prefill else latestForUser;
      prefill := None;
      if used.None? && reviewMode && latestOther.Some? && latestOther.value != [] {
        used := latestOther;
      }
    }
  }

  /** Undo after Save restores the store, when the saved label's id is new. */
  lemma UndoRestoresStore(rows: seq<Dict>, labelId: string, requestId: string, form: Dict, prefill: Option<Dict>, reviewStatus: string, reviewNotes: string)
    requires forall i :: 0 <= i < |rows| ==> Get(rows[i], "label_id") != VStr(labelId)
    ensures WithoutLabel(rows + [Payload(labelId, requestId, form, prefill, reviewStatus, reviewNotes)], labelId) == rows
  {
    SaveThenDeleteRestores(rows, Payload(labelId, requestId, form, prefill, reviewStatus, reviewNotes), labelId);
  }
}
