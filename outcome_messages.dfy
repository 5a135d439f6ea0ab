/**
 * Message extraction from a server-reported OperationOutcome: for every issue
 * the client picks one human-readable message, by a fixed priority, and
 * collects the messages in issue order (FhirClientExample.main, inside the
 * handler for server response exceptions).
 */
module OutcomeMessages {

  import opened Wrappers

  /** The fallback used for an issue that carries neither details text nor diagnostics. */
  const GenericErrorMessage: string := "An unexpected error occurred."

  /** The two parts of an OperationOutcome issue that the client reads:
      issue.details.text and issue.diagnostics. */
  datatype Issue = Issue(detailsText: Option<string>, diagnostics: Option<string>)

  /** The library's hasText() and hasDiagnostics(), taken to mean that the
      element is present and holds a non-empty string. */
  predicate Has(s: Option<string>)
  {
    s.Some? && s.value != ""
  }

  /** The candidate messages of an issue, highest priority first. */
  function Candidates(issue: Issue): seq<Option<string>>
  {
    [issue.detailsText, issue.diagnostics]
  }

  /** Candidate k is the first of the candidates that has text. */
  predicate ChosenAt(candidates: seq<Option<string>>, k: int)
  {
    0 <= k < |candidates| && Has(candidates[k]) &&
    forall j :: 0 <= j < k ==> !Has(candidates[j])
  }

  /** Reference rule: the text of the first candidate that has text, or the
      fallback when none has. */
  function FirstWithText(candidates: seq<Option<string>>, fallback: string): (m: string)
    ensures forall k :: ChosenAt(candidates, k) ==> m == candidates[k].value
    ensures (forall j :: 0 <= j < |candidates| ==> !Has(candidates[j])) ==> m == fallback
    decreases |candidates|
  {
    if candidates == [] then fallback
    else if Has(candidates[0]) then candidates[0].value
    else
      var rest := candidates[1..];
      assert forall k :: ChosenAt(candidates, k) ==> ChosenAt(rest, k - 1) by {
        forall k | ChosenAt(candidates, k) ensures ChosenAt(rest, k - 1) {
          assert k != 0;
          forall j | 0 <= j < k - 1 ensures !Has(rest[j]) {
            assert rest[j] == candidates[j + 1];
          }
        }
      }
      assert (forall j :: 0 <= j < |candidates| ==> !Has(candidates[j])) ==>
             (forall j :: 0 <= j < |rest| ==> !Has(rest[j])) by {
        if forall j :: 0 <= j < |candidates| ==> !Has(candidates[j]) {
          forall j | 0 <= j < |rest| ensures !Has(rest[j]) {
            assert rest[j] == candidates[j + 1];
          }
        }
      }
      FirstWithText(rest, fallback)
  }

  /** The message the client logs for one issue: details text if it has
      text, else diagnostics if present, else the generic message. The choice
      is the first candidate that has text, and it is never empty. */
  function MessageFor(issue: Issue): (m: string)
    ensures m == FirstWithText(Candidates(issue), GenericErrorMessage)
    ensures m != ""
  {
    var candidates := Candidates(issue);
    if Has(issue.detailsText) then
      assert ChosenAt(candidates, 0);
      issue.detailsText.value
    else if Has(issue.diagnostics) then
      assert ChosenAt(candidates, 1);
      issue.diagnostics.value
    else
      GenericErrorMessage
  }

  /** Details text wins, whatever the diagnostics are. */
  lemma DetailsTextWins(text: string, diagnostics: Option<string>)
    requires text != ""
    ensures MessageFor(Issue(Some(text), diagnostics)) == text
  {
  }

  /** Without details text, the diagnostics are used verbatim. */
  lemma DiagnosticsWithoutDetailsText(detailsText: Option<string>, diagnostics: string)
    requires !Has(detailsText) && diagnostics != ""
    ensures MessageFor(Issue(detailsText, Some(diagnostics))) == diagnostics
  {
  }

  /** With neither, the message is exactly the generic one. */
  lemma GenericWithoutEither(issue: Issue)
    requires !Has(issue.detailsText) && !Has(issue.diagnostics)
    ensures MessageFor(issue) == GenericErrorMessage
  {
  }

  /** The messages list built for a list of issues: one message appended per
      issue, in issue order. */
  function Extracted(issues: seq<Issue>): seq<string>
    decreases |issues|
  {
    if issues == [] then []
    else Extracted(issues[..|issues| - 1]) + [MessageFor(issues[|issues| - 1])]
  }

  /** Exactly one message per issue. */
  lemma {:induction false} ExtractedLength(issues: seq<Issue>)
    ensures |Extracted(issues)| == |issues|
    decreases |issues|
  {
    if issues != [] {
      ExtractedLength(issues[..|issues| - 1]);
    }
  }

  /** Message i is the message for issue i alone. */
  lemma {:induction false} ExtractedAt(issues: seq<Issue>, i: int)
    requires 0 <= i < |issues|
    ensures |Extracted(issues)| == |issues|
    ensures Extracted(issues)[i] == MessageFor(issues[i])
    decreases |issues|
  {
    ExtractedLength(issues);
    var init := issues[..|issues| - 1];
    ExtractedLength(init);
    if i < |issues| - 1 {
      ExtractedAt(init, i);
    }
  }

  /** Extraction of a concatenation is the concatenation of the extractions:
      no message depends on another issue. */
  lemma {:induction false} ExtractedAppend(a: seq<Issue>, b: seq<Issue>)
    ensures Extracted(a + b) == Extracted(a) + Extracted(b)
    decreases |b|
  {
    if b == [] {
      assert a + b == a;
    } else {
      var b' := b[..|b| - 1];
      assert (a + b)[..|a + b| - 1] == a + b';
      ExtractedAppend(a, b');
    }
  }

  /** No extracted message is empty. */
  lemma NoEmptyMessage(issues: seq<Issue>)
    ensures forall i :: 0 <= i < |Extracted(issues)| ==> Extracted(issues)[i] != ""
  {
  }

  /** The loop that builds the messages list: one pass over the issues,
      choosing a message for each and appending it. */
  method ExtractMessages(issues: seq<Issue>) returns (messages: seq<string>)
    ensures messages == Extracted(issues)
    ensures |messages| == |issues|
    ensures forall i :: 0 <= i < |issues| ==> messages[i] == MessageFor(issues[i])
    ensures forall i :: 0 <= i < |messages| ==> messages[i] != ""
  {
    messages := [];
    for i := 0 to |issues|
      invariant messages == Extracted(issues[..i])
    {
      var issue := issues[i];
      var messageForIssue: string;
      if Has(issue.detailsText) {
        messageForIssue := issue.detailsText.value;
      } else if Has(issue.diagnostics) {
        messageForIssue := issue.diagnostics.value;
      } else {
        messageForIssue := GenericErrorMessage;
      }
      assert issues[..i + 1][..i] == issues[..i];
      messages := messages + [messageForIssue];
    }
    assert issues[..|issues|] == issues;
    ExtractedLength(issues);
    forall i | 0 <= i < |issues| ensures messages[i] == MessageFor(issues[i]) {
      ExtractedAt(issues, i);
    }
    NoEmptyMessage(issues);
  }
}
