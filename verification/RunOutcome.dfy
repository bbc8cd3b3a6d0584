/** How a finished spider run becomes a final job status. */
module RunOutcome {
  import opened Text
  import opened CrawlJobs

  const PAGE_FETCH_FAILED := "页面获取失败"
  const SPIDER_EXITED := "页面获取失败: spider 进程退出"
  const LIST_EMPTY := "列表解析为0"
  const DETAIL_PARSE_FAILED := "详情解析失败"
  const NO_FAILURE := "-"

  datatype Stage = Fetch | Parse | Persist

  datatype ErrorRow = ErrorRow(stage: Stage, message: string)

  /** The non-empty messages of one stage, in table order. */
  function MessagesOf(errors: seq<ErrorRow>, stage: Stage): (r: seq<string>)
    ensures r != [] <==> exists e :: e in errors && e.stage == stage && e.message != ""
    ensures forall m | m in r :: m != ""
  {
    if errors == [] then []
    else (if errors[0].stage == stage && errors[0].message != "" then [errors[0].message] else []) + MessagesOf(errors[1..], stage)
  }

  function NonBlankMessages(errors: seq<ErrorRow>): seq<string> {
    if errors == [] then []
    else (if Strip(errors[0].message) != "" then [Strip(errors[0].message)] else []) + NonBlankMessages(errors[1..])
  }

  predicate MentionsDetail(message: string) {
    Contains(message, "详情") || Contains(Lower(message), "detail")
  }

  function DetailMessages(messages: seq<string>): seq<string> {
    if messages == [] then []
    else (if MentionsDetail(messages[0]) then [messages[0]] else []) + DetailMessages(messages[1..])
  }

  function PrefixFailureReason(prefix: string, reason: string): string {
    var normalized := Strip(reason);
    if normalized == "" then prefix
    else if normalized == prefix || StartsWith(normalized, prefix + ":") then normalized
    else prefix + ": " + normalized
  }

  function InferFailureReason(errors: seq<ErrorRow>, listItemsSeen: nat, detailPagesFetched: nat,
                              pagesScraped: int, returnCode: int): string
  {
    var fetchErrors := MessagesOf(errors, Fetch);
    var parseErrors := MessagesOf(errors, Parse);
    var detailErrors := DetailMessages(parseErrors);
    var messages := NonBlankMessages(errors);
    if returnCode != 0 then SPIDER_EXITED
    else if fetchErrors != [] && pagesScraped <= 0 then PrefixFailureReason(PAGE_FETCH_FAILED, fetchErrors[0])
    else if fetchErrors != [] && listItemsSeen <= 0 then PrefixFailureReason(PAGE_FETCH_FAILED, fetchErrors[0])
    else if listItemsSeen <= 0 then LIST_EMPTY
    else if detailErrors != [] then PrefixFailureReason(DETAIL_PARSE_FAILED, detailErrors[0])
    else if detailPagesFetched <= 0 && parseErrors != [] then PrefixFailureReason(DETAIL_PARSE_FAILED, parseErrors[0])
    else if messages != [] then PrefixFailureReason(DETAIL_PARSE_FAILED, messages[0])
    else NO_FAILURE
  }

  function InferFinalStatus(errorCount: nat, failureReason: string, returnCode: int): Status {
    if returnCode != 0 then Failed
    else if StartsWith(Strip(failureReason), PAGE_FETCH_FAILED) then Failed
    else if errorCount > 0 then Partial
    else Succeeded
  }

  /** The run never got a list page: a fetch error and no page or no list item. */
  ghost predicate NothingFetched(errors: seq<ErrorRow>, listItemsSeen: nat, pagesScraped: int) {
    (exists e :: e in errors && e.stage == Fetch && e.message != "") && (pagesScraped <= 0 || listItemsSeen == 0)
  }

  lemma StrippedStands(s: string)
    requires s != "" && !IsSpace(s[0]) && !IsSpace(s[|s| - 1])
    ensures Strip(s) == s
  {
  }

  /** A prefixed reason keeps its prefix through the strip that reads it back. */
  lemma PrefixSurvives(prefix: string, reason: string)
    requires prefix != "" && !IsSpace(prefix[0]) && !IsSpace(prefix[|prefix| - 1])
    ensures var r := PrefixFailureReason(prefix, reason); Strip(r) == r && StartsWith(r, prefix)
  {
    var normalized := Strip(reason);
    var r := PrefixFailureReason(prefix, reason);
    StrippedEnds(reason);
    if normalized != "" {
      assert prefix <= prefix + ":" && prefix <= prefix + ": " + normalized;
      assert r[|r| - 1] == normalized[|normalized| - 1];
    }
    StrippedStands(r);
  }

  lemma DetailReasonIsNotAFetchFailure(reason: string)
    ensures !StartsWith(Strip(PrefixFailureReason(DETAIL_PARSE_FAILED, reason)), PAGE_FETCH_FAILED)
  {
    PrefixSurvives(DETAIL_PARSE_FAILED, reason);
    var r := PrefixFailureReason(DETAIL_PARSE_FAILED, reason);
    assert r[0] == DETAIL_PARSE_FAILED[0] != PAGE_FETCH_FAILED[0];
  }

  /** The status decision, in terms of the exit code and the error rows alone. */
  lemma {:induction false} FinalStatusExactly(errors: seq<ErrorRow>, errorCount: nat, listItemsSeen: nat, detailPagesFetched: nat,
                           pagesScraped: int, returnCode: int)
    ensures var reason := InferFailureReason(errors, listItemsSeen, detailPagesFetched, pagesScraped, returnCode);
            InferFinalStatus(errorCount, reason, returnCode) ==
              if returnCode != 0 || NothingFetched(errors, listItemsSeen, pagesScraped) then Failed
              else if errorCount > 0 then Partial
              else Succeeded
  {
    var reason := InferFailureReason(errors, listItemsSeen, detailPagesFetched, pagesScraped, returnCode);
    var fetchErrors := MessagesOf(errors, Fetch);
    if returnCode == 0 {
      if fetchErrors != [] && (pagesScraped <= 0 || listItemsSeen <= 0) {
        PrefixSurvives(PAGE_FETCH_FAILED, fetchErrors[0]);
      } else if reason != LIST_EMPTY && reason != NO_FAILURE {
        var source := if DetailMessages(MessagesOf(errors, Parse)) != [] then DetailMessages(MessagesOf(errors, Parse))[0]
                      else if detailPagesFetched <= 0 && MessagesOf(errors, Parse) != [] then MessagesOf(errors, Parse)[0]
                      else NonBlankMessages(errors)[0];
        DetailReasonIsNotAFetchFailure(source);
      } else {
        StrippedStands(reason);
        assert reason[0] != PAGE_FETCH_FAILED[0];
      }
    }
  }

  /** With an error counter that counts the error rows, a run succeeds exactly when the spider exited
      with code 0 and left no error row. */
  lemma {:induction false} SucceedsIffCleanRun(errors: seq<ErrorRow>, listItemsSeen: nat, detailPagesFetched: nat, pagesScraped: int, returnCode: int)
    ensures var reason := InferFailureReason(errors, listItemsSeen, detailPagesFetched, pagesScraped, returnCode);
            InferFinalStatus(|errors|, reason, returnCode) == Succeeded <==> returnCode == 0 && errors == []
  {
    FinalStatusExactly(errors, |errors|, listItemsSeen, detailPagesFetched, pagesScraped, returnCode);
  }

  /** The text is the message, with the prefix put before it unless it is there already. */
  predicate Reports(reason: string, prefix: string, message: string) {
    || (AllSpaces(message) && reason == prefix)
    || (prefix <= Strip(message) && reason == Strip(message))
    || reason == prefix + ": " + Strip(message)
  }

  lemma PrefixedReports(prefix: string, message: string)
    ensures Reports(PrefixFailureReason(prefix, message), prefix, message)
  {
    StripOfBlank(message);
    hide Strip, AllSpaces;
    assert prefix <= prefix + ":";
  }

  /** The k-th row is the first of the stage that has a message. */
  predicate FirstMessage(errors: seq<ErrorRow>, stage: Stage, k: int) {
    && 0 <= k < |errors| && errors[k].stage == stage && errors[k].message != ""
    && forall j | 0 <= j < k :: errors[j].stage != stage || errors[j].message == ""
  }

  lemma {:induction false} FirstOfStage(errors: seq<ErrorRow>, stage: Stage) returns (k: nat)
    ensures MessagesOf(errors, stage) != [] ==> FirstMessage(errors, stage, k) && errors[k].message == MessagesOf(errors, stage)[0]
  {
    if errors == [] || (errors[0].stage == stage && errors[0].message != "") {
      k := 0;
    } else {
      k := FirstOfStage(errors[1..], stage);
      k := k + 1;
      assert forall j | 0 < j < |errors| :: errors[j] == errors[1..][j - 1];
    }
  }

  lemma {:induction false} SomeMessage(errors: seq<ErrorRow>)
    ensures NonBlankMessages(errors) == [] <==> forall e | e in errors :: AllSpaces(e.message)
  {
    if errors != [] {
      StripOfBlank(errors[0].message);
      SomeMessage(errors[1..]);
      assert errors == [errors[0]] + errors[1..];
    }
  }

  lemma {:induction false} DetailsAreMessages(messages: seq<string>)
    ensures forall m :: m in DetailMessages(messages) <==> m in messages && MentionsDetail(m)
  {
    if messages != [] {
      DetailsAreMessages(messages[1..]);
      assert messages == [messages[0]] + messages[1..];
    }
  }

  lemma {:induction false} SpacesMentionNothing(message: string)
    requires AllSpaces(message)
    ensures !MentionsDetail(message)
  {
    ContainsExactly(message, "详情");
    ContainsExactly(Lower(message), "detail");
    forall i | 0 <= i <= |message| ensures !("详情" <= message[i..]) && !("detail" <= Lower(message)[i..]) {
      if i < |message| {
        assert message[i] in message && Lower(message)[i] == LowerChar(message[i]) == message[i];
        assert "详情"[0] == '详' && "detail"[0] == 'd';
      }
    }
    hide Contains;
  }

  lemma {:induction false} MessagesAreOfRows(errors: seq<ErrorRow>, stage: Stage)
    ensures forall m :: m in MessagesOf(errors, stage) ==> exists e :: e in errors && e.message == m
  {
    if errors != [] {
      MessagesAreOfRows(errors[1..], stage);
      assert errors[0] in errors && forall e | e in errors[1..] :: e in errors;
    }
  }

  lemma BlankRowsMentionNothing(errors: seq<ErrorRow>)
    requires forall e | e in errors :: AllSpaces(e.message)
    ensures DetailMessages(MessagesOf(errors, Parse)) == []
  {
    var parseErrors := MessagesOf(errors, Parse);
    DetailsAreMessages(parseErrors);
    MessagesAreOfRows(errors, Parse);
    hide DetailMessages, MessagesOf, MentionsDetail, AllSpaces;
    if DetailMessages(parseErrors) != [] {
      var m := DetailMessages(parseErrors)[0];
      assert m in DetailMessages(parseErrors);
      SpacesMentionNothing(m);
    }
  }

  /** The failure text: the exit if the spider failed; the first fetch message if nothing was fetched; an
      empty list; otherwise a detail failure, unless no row says anything and a detail page was fetched
      or no row is a parse failure with a message. */
  lemma {:induction false} ReasonExactly(errors: seq<ErrorRow>, listItemsSeen: nat, detailPagesFetched: nat, pagesScraped: int, returnCode: int)
    ensures var reason := InferFailureReason(errors, listItemsSeen, detailPagesFetched, pagesScraped, returnCode);
            var unfetched := NothingFetched(errors, listItemsSeen, pagesScraped);
            var silent := (forall e | e in errors :: AllSpaces(e.message))
                          && (detailPagesFetched > 0 || forall e | e in errors && e.stage == Parse :: e.message == "");
            && (returnCode != 0 ==> reason == "页面获取失败: spider 进程退出")
            && (returnCode == 0 && unfetched ==>
                  exists k :: FirstMessage(errors, Fetch, k) && Reports(reason, "页面获取失败", errors[k].message))
            && (returnCode == 0 && !unfetched && listItemsSeen == 0 ==> reason == "列表解析为0")
            && (returnCode == 0 && !unfetched && listItemsSeen > 0 && silent ==> reason == "-")
            && (returnCode == 0 && !unfetched && listItemsSeen > 0 && !silent ==> "详情解析失败" <= reason)
  {
    var fetchErrors := MessagesOf(errors, Fetch);
    var parseErrors := MessagesOf(errors, Parse);
    var first := FirstOfStage(errors, Fetch);
    if fetchErrors != [] { PrefixedReports(PAGE_FETCH_FAILED, fetchErrors[0]); }
    SomeMessage(errors);
    if forall e | e in errors :: AllSpaces(e.message) { BlankRowsMentionNothing(errors); }
    hide MessagesOf, DetailMessages, NonBlankMessages, Strip, Contains, AllSpaces, Reports;
    if returnCode == 0 && !NothingFetched(errors, listItemsSeen, pagesScraped) && listItemsSeen > 0 {
      var details := DetailMessages(parseErrors);
      if details != [] {
        PrefixSurvives(DETAIL_PARSE_FAILED, details[0]);
      } else if detailPagesFetched <= 0 && parseErrors != [] {
        PrefixSurvives(DETAIL_PARSE_FAILED, parseErrors[0]);
      } else if NonBlankMessages(errors) != [] {
        PrefixSurvives(DETAIL_PARSE_FAILED, NonBlankMessages(errors)[0]);
      }
    }
  }
}
