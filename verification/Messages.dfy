/** The `error_message` out-pointer of the C API (src/error.rs). */
module Messages {
  import opened Basics
  import opened Objects
  import opened Memory
  import opened HeapModel
  import opened Errors

  /**
   What a call did to the caller's message slot: None if it was left alone, otherwise the pointer
   written there, which is NULL when the text cannot be a C string.
   */
  type Message = Option<Ptr>

  /** The view after a message was delivered: one fresh string the caller must free, or nothing. */
  ghost function Delivered(view: map<Ptr, Object>, msg: Message, text: string): map<Ptr, Object> {
    if msg.Some? && msg.value != NULL then view[msg.value := LeafObj(CStr(text))] else view
  }

  /** The outcome of writing `text` to a slot that is present or NULL. */
  ghost predicate MessageFits(view: map<Ptr, Object>, slot: bool, text: string, msg: Message) {
    && (msg.Some? <==> slot)
    && (msg.Some? ==> (msg.value == NULL <==> !NulFree(text)) && msg.value !in view)
  }

  /** The blocks are exactly what they were, apart from the message the caller now holds. */
  ghost predicate RolledBack(blocks0: Blocks, blocks: Blocks, msg: Message, text: string) {
    blocks == if msg.Some? && msg.value != NULL
              then blocks0[msg.value := Block(InCString, Plain(CStr(text)), [])] else blocks0
  }

  const INVALID_ARGUMENT := "Invalid argument"
  const UNKNOWN_ERROR := "Unknown error"
  const NOT_SUPPORTED := "Not supported"

  /** set_error_message, set_custom_error_message and the fixed-text variants: one body, another text. */
  method SetMessage(h: Heap, slot: bool, text: string) returns (msg: Message)
    requires h.Valid()
    modifies h
    ensures h.Valid() && h.Temps() == old(h.Temps())
    ensures MessageFits(old(h.View()), slot, text, msg) && h.View() == Delivered(old(h.View()), msg, text)
    ensures if slot && '\0' !in text
            then msg.Some? && msg.value != NULL && h.View() == old(h.View())[msg.value := LeafObj(CStr(text))]
            else h.View() == old(h.View()) && msg == if slot then Some(NULL) else None
    ensures RolledBack(old(h.blocks), h.blocks, msg, text)
  {
    hide Forest, Held, StackBlocks;
    h.HeldAreLive();
    if !slot {
      return None;
    }
    if NulFree(text) {
      var p := h.CStringNew(text);
      msg := Some(p);
    } else {
      msg := Some(NULL);
    }
  }

  /** How a call with an error slot ended; `text` is the message of a failure. */
  datatype Status = Status(code: ErrorCode, text: string, msg: Message)

  /**
   The discipline of the error slot: success leaves the slot and the heap alone, and a failure adds at
   most one fresh string to what the call left behind.
   */
  ghost predicate Ended(view: map<Ptr, Object>, slot: bool, s: Status, view': map<Ptr, Object>) {
    if s.code.Success? then s.msg == None && view' == view
    else MessageFits(view, slot, s.text, s.msg) && view' == Delivered(view, s.msg, s.text)
  }

  /** After a failure the caller who gave a slot holds a string with exactly its text, unless that has a NUL. */
  lemma FailuresDeliverTheirText(view: map<Ptr, Object>, slot: bool, s: Status, view': map<Ptr, Object>)
    requires Ended(view, slot, s, view') && !s.code.Success?
    ensures if slot && '\0' !in s.text
            then
              && s.msg.Some? && s.msg.value != NULL && s.msg.value !in view
              && view' == view[s.msg.value := LeafObj(CStr(s.text))]
            else view' == view && s.msg == if slot then Some(NULL) else None
  {
  }

  const DONE := Status(ErrorCode.Success, "", None)

  method Fail(h: Heap, slot: bool, code: ErrorCode, text: string) returns (s: Status)
    requires h.Valid() && !code.Success?
    modifies h
    ensures h.Valid() && h.Temps() == old(h.Temps())
    ensures s.code == code && s.text == text && Ended(old(h.View()), slot, s, h.View())
    ensures RolledBack(old(h.blocks), h.blocks, s.msg, s.text)
  {
    hide Forest, Held, StackBlocks, MessageFits, Delivered, RolledBack;
    var msg := SetMessage(h, slot, text);
    s := Status(code, text, msg);
  }

  /** An error of the library, with the text it renders to. */
  datatype Failure = Failure(error: LibError, rendered: string)

  predicate IsFailure(s: Status, f: Failure) {
    s.code == ErrorToErrorCode(f.error) && s.text == f.rendered
  }

  /** A failure that is passed on has the one code its error reports, and the text it renders to. */
  lemma FailuresReportTheirCode(s: Status, f: Failure)
    ensures IsFailure(s, f) <==> Reports(s.code, f.error) && s.text == f.rendered
  {
    CodesOfErrors(f.error, s.code);
    hide Reports, ErrorToErrorCode;
  }

  /** The texts of the failures that are not the library's. */
  lemma FixedTexts(s: Status)
    ensures IsInvalidArgument(s) <==> s.code == ErrorCode.InvalidArgument && s.text == "Invalid argument"
    ensures IsUnknown(s) <==> s.code == ErrorCode.Unknown && s.text == "Unknown error"
    ensures NOT_SUPPORTED == "Not supported"
  {
  }

  predicate IsInvalidArgument(s: Status) {
    s.code == ErrorCode.InvalidArgument && s.text == INVALID_ARGUMENT
  }

  /** The code and text of a call that either rejects its arguments or ends as the library does. */
  predicate Concluded(s: Status, accepted: bool, outcome: Option<Failure>) {
    && (s.code.Success? <==> accepted && outcome.None?)
    && (!accepted ==> IsInvalidArgument(s))
    && (accepted && outcome.Some? ==> IsFailure(s, outcome.value))
  }

  /** Rejected arguments, a success of the library, or its error: nothing else is ever reported. */
  lemma ConcludedCallsReport(s: Status, accepted: bool, outcome: Option<Failure>)
    requires Concluded(s, accepted, outcome)
    ensures if !accepted then s.code == ErrorCode.InvalidArgument && s.text == "Invalid argument"
            else if outcome.None? then s.code == ErrorCode.Success
            else
              s.code != ErrorCode.Success && Reports(s.code, outcome.value.error) && s.text == outcome.value.rendered
  {
    hide Reports, ErrorToErrorCode;
    if accepted && outcome.Some? {
      FailuresReportTheirCode(s, outcome.value);
    }
  }

  predicate IsUnknown(s: Status) {
    s.code == ErrorCode.Unknown && s.text == UNKNOWN_ERROR
  }

  method RejectCall(h: Heap, slot: bool) returns (s: Status)
    requires h.Valid()
    modifies h
    ensures h.Valid() && h.Temps() == old(h.Temps()) && IsInvalidArgument(s) && Ended(old(h.View()), slot, s, h.View())
    ensures RolledBack(old(h.blocks), h.blocks, s.msg, s.text)
  {
    hide Forest, Held, StackBlocks, Ended, RolledBack;
    s := Fail(h, slot, ErrorCode.InvalidArgument, INVALID_ARGUMENT);
  }

  method HandleError(h: Heap, slot: bool, f: Failure) returns (s: Status)
    requires h.Valid()
    modifies h
    ensures h.Valid() && h.Temps() == old(h.Temps())
    ensures IsFailure(s, f) && !s.code.Success? && Ended(old(h.View()), slot, s, h.View())
    ensures Reports(s.code, f.error) && s.text == f.rendered
    ensures RolledBack(old(h.blocks), h.blocks, s.msg, s.text)
  {
    hide Forest, Held, StackBlocks, ErrorToErrorCode, Ended, RolledBack, Reports;
    LibraryErrorsHaveTheirOwnCodes(f.error);
    CodesOfErrors(f.error, ErrorToErrorCode(f.error));
    s := Fail(h, slot, ErrorToErrorCode(f.error), f.rendered);
  }

  /** lancedb_free_string. */
  method FreeString(h: Heap, p: Ptr)
    requires h.Ready() && (p == NULL || (p in h.View() && h.View()[p].LeafObj? && h.View()[p].leaf.CStr?))
    modifies h
    ensures h.Ready() && h.View() == old(h.View()) - {p}
  {
    hide Forest, Held, StackBlocks;
    h.HeldAreLive();
    if p != NULL {
      h.CStringDrop(p);
    }
  }
}
