# FHIR client example: error reporting model

A Dafny model of the error handling in the demo program `FhirClientExample`.
The program runs one patient search through the HAPI FHIR client and logs what it found. When
anything in that try block (lines 54-66) throws,
`main` picks the first catch clause, in the order written, whose type matches the throwable.
That handler logs an error line. The handler for server response exceptions also reports the
OperationOutcome the server attached. For each issue of that outcome it picks exactly one message:

1. the issue's `details.text`, if it has text;
2. otherwise its `diagnostics`, if present;
3. otherwise the fixed message "An unexpected error occurred.".

It collects these messages in issue order. It logs a header and the messages only when the
list is non-empty. When no outcome was attached, it logs a notice instead.

Files:

- `wrappers.dfy` (module `Wrappers`): `Option`, for a Java reference that may be null or a FHIR element that may be absent.
- `outcome_messages.dfy` (module `OutcomeMessages`): the issue datatype and the per-issue priority rule. `MessageFor` is the if-chain as written. `FirstWithText` is the reference rule from the code comment ("the first of the following that is defined"). The module also holds the list-level specification `Extracted` and the loop `ExtractMessages` that builds the list.
- `failure_handling.dfy` (module `FailureHandling`): the catch clauses. `Classify` is the if-chain in source order. `FirstClause` is a reference first-match over the list `CatchOrder`. `OutcomeLines` holds the conditional reporting of lines 100-105. A `Report` is the handler that ran plus the lines it would log, in order; logging itself is not modelled.

Stated assumptions:

- `hasText()` and `hasDiagnostics()` are library predicates whose code is not part of this model. They are modelled as "present and holds a non-empty string" (`OutcomeMessages.Has`).
- The exception hierarchy of the library is not part of this model. A throwable is modelled as the set of catch-clause types it is an instance of (`Failure.instanceOf`), and any set is allowed. This keeps the catch order meaningful: in the library, several of the earlier clause types may be subtypes of `BaseServerResponseException`, so a throwable can match more than one clause. A throwable that matches no clause (a Java `Error`, which `catch (Exception e)` does not catch) is the category `Uncaught`: `main` logs nothing for it and it leaves `main`.

## Model

| member | source | states |
|---|---|---|
| OutcomeMessages.FirstWithText | src/main/java/com/myorganization/FhirClientExample.java:80-86 | the result is the text of the first candidate that has text (every earlier one has none), or the fallback when no candidate has text |
| OutcomeMessages.MessageFor | src/main/java/com/myorganization/FhirClientExample.java:89-96 | the message chosen by the source's if-chain equals the first-with-text choice over [details text, diagnostics] with the generic fallback, and it is never empty |
| OutcomeMessages.DetailsTextWins | src/main/java/com/myorganization/FhirClientExample.java:90-91 | an issue whose details text is non-empty gets that text verbatim, whatever its diagnostics are |
| OutcomeMessages.DiagnosticsWithoutDetailsText | src/main/java/com/myorganization/FhirClientExample.java:92-93 | an issue without details text but with non-empty diagnostics gets the diagnostics verbatim |
| OutcomeMessages.GenericWithoutEither | src/main/java/com/myorganization/FhirClientExample.java:94-95 | an issue with neither gets exactly GENERIC_ERROR_MESSAGE, "An unexpected error occurred." (line 40) |
| OutcomeMessages.ExtractedLength | src/main/java/com/myorganization/FhirClientExample.java:87-98 | the messages list has exactly one entry per issue |
| OutcomeMessages.ExtractedAt | src/main/java/com/myorganization/FhirClientExample.java:88-97 | message i is the message chosen for issue i |
| OutcomeMessages.ExtractedAppend | src/main/java/com/myorganization/FhirClientExample.java:88-97 | extracting the messages of a concatenation of issue lists gives the concatenation of their messages, so no message depends on another issue |
| OutcomeMessages.NoEmptyMessage | src/main/java/com/myorganization/FhirClientExample.java:89-97 | no message in the list is empty |
| OutcomeMessages.ExtractMessages | src/main/java/com/myorganization/FhirClientExample.java:87-98 | the loop returns the list specified by Extracted: same length as the issues, message i is the choice for issue i, and none is empty |
| FailureHandling.FirstClause | src/main/java/com/myorganization/FhirClientExample.java:67-107 | returns the index of the first clause, in the given order, whose type the throwable is an instance of, with all earlier clauses not matching; returns the length of the order when none matches |
| FailureHandling.FirstClauseUnique | src/main/java/com/myorganization/FhirClientExample.java:67-107 | at most one index has the first-match property, so each throwable is handled by exactly one clause or by none |
| FailureHandling.OutcomeLines | src/main/java/com/myorganization/FhirClientExample.java:100-105 | no outcome gives the single "no operation outcome" line; an outcome with issues gives the header followed by exactly the extracted messages; an outcome without issues gives nothing |
| FailureHandling.Classify | src/main/java/com/myorganization/FhirClientExample.java:67-108 | a handled throwable logs its handler's headline first and an uncaught one logs nothing; every handler other than the server response one logs exactly one line |
| FailureHandling.ClassifyIsFirstMatch | src/main/java/com/myorganization/FhirClientExample.java:67-107 | the category is the one of the first clause in source order whose type matches, or Uncaught when none does |
| FailureHandling.UncaughtIffNoClauseMatches | src/main/java/com/myorganization/FhirClientExample.java:67-109 | a throwable leaves main unhandled exactly when it matches none of the six clause types |
| FailureHandling.OutcomeReadOnlyByServerHandler | src/main/java/com/myorganization/FhirClientExample.java:67-108 | outside the server response handler the report does not depend on the attached outcome, so messages are extracted only in that handler |
| FailureHandling.ServerErrorReport | src/main/java/com/myorganization/FhirClientExample.java:75-106 | the server response handler logs its headline, then the header and one message per issue; for an empty outcome it logs only its headline; with no outcome it logs the headline and the "no operation outcome" line |

## Left out

- The success path (lines 54-66): the patient search, the count of patients found and the patient IDs. The search is a call into the HAPI FHIR client, and the unchecked cast of each bundle entry to `Patient` is library object access.
- Query building, the interceptor chain and bundle parsing. These happen inside the HAPI FHIR library, not in this program.
- Setting up the FHIR context and the client (lines 28, 50). Both are library calls.
- Handling of the command-line argument (lines 44-48). This is I/O.
- The SLF4J logging. Each `LOG.error` call is modelled as one line of the `Report`. The throwable that the headline call also logs (its stack trace) is not modelled, and neither are the debug and info lines.
- The cast of `getOperationOutcome()` to `OperationOutcome` (line 78). The model assumes it succeeds. A `ClassCastException` thrown inside the handler would propagate out of `main`.
- The real exception subtype relation of the library. Only the catch order written in the file is encoded (see the stated assumptions above).
