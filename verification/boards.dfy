/**
 Board discovery: reading the resource responses embedded in a profile page,
 recognising the responses that report an error, and turning the board
 resource's data into `Board` records.
 */
module Boards {
  import opened Values
  import opened Strings

  /** A board of a user. Each field is whatever the page data held under the
      corresponding key; the code copies the values without inspecting them. */
  datatype Board = Board(id: Json, url: Json, owner: Json, name: Json)

  /** The status, HTTP status and data of one named resource response, or
      `Unset` while no response with that name has been seen. */
  datatype Slot = Unset | Slot(status: Json, statusCode: Json, data: Json)

  /** What the profile page yields: the base-resource and board-resource
      slots and the last error message found (`JNull` when none). */
  datatype PageState = PageState(base: Slot, board: Slot, error: Json)

  const BaseResourceName := "UserProfileBaseResource"
  const BoardResourceName := "UserProfileBoardResource"
  const WrongObjectMessage := "Wrong object provided"
  const NoBoardsMessage := "User does not have any boards"
  const NoErrorsMessage := "Response item does not have errors"
  const NotFoundMessage := "Response item was not found"
  /** The separator between the prefix of a server error message and its JSON part. */
  const ErrorSeparator := " - "

  /** One board record turned into a `Board`, reading `id`, `url`,
      `owner.username` and `name` in that order. */
  function BoardOf(rec: Json): (r: Result<Board>)
    ensures r.Ok? <==> rec.JObj? && "id" in rec.fields && "url" in rec.fields
                       && "owner" in rec.fields && rec.fields["owner"].JObj?
                       && "username" in rec.fields["owner"].fields && "name" in rec.fields
    ensures r.Ok? ==> r.value == Board(rec.fields["id"], rec.fields["url"],
                                       rec.fields["owner"].fields["username"], rec.fields["name"])
  {
    var id :- Lookup(rec, "id");
    var url :- Lookup(rec, "url");
    var owner :- Path(rec, ["owner", "username"]);
    var name :- Lookup(rec, "name");
    Ok(Board(id, url, owner, name))
  }

  /** The loop over the board records: every record in order, stopping at the
      first record that raises. */
  function MapBoards(recs: seq<Json>): (r: Result<seq<Board>>)
    ensures r.Ok? <==> forall i :: 0 <= i < |recs| ==> BoardOf(recs[i]).Ok?
    ensures r.Ok? ==> |r.value| == |recs|
                      && forall i :: 0 <= i < |recs| ==> BoardOf(recs[i]) == Ok(r.value[i])
    ensures r.Err? ==> exists i :: 0 <= i < |recs| && BoardOf(recs[i]) == Err(r.error)
                                   && forall j :: 0 <= j < i ==> BoardOf(recs[j]).Ok?
    decreases |recs|
  {
    if |recs| == 0 then Ok([])
    else
      var first :- BoardOf(recs[0]);
      var rest :- MapBoards(recs[1..]);
      Ok([first] + rest)
  }

  /** `user_profile_board_resource`: a list of board records becomes a list of boards. */
  function UserProfileBoardResource(data: Json): (r: Result<seq<Board>>)
    ensures !data.JArr? ==> r == Err(ValueError(WrongObjectMessage))
    ensures r.Ok? ==> data.JArr? && |r.value| == |data.elems|
                      && forall i :: 0 <= i < |data.elems| ==> BoardOf(data.elems[i]) == Ok(r.value[i])
    ensures data.JArr? && (forall i :: 0 <= i < |data.elems| ==> BoardOf(data.elems[i]).Ok?) ==> r.Ok?
  {
    if !data.JArr? then Err(ValueError(WrongObjectMessage))
    else MapBoards(data.elems)
  }

  /** The literal `"response" in "response_item"` always holds. */
  lemma ResponseKeyInItemName()
    ensures IsInfix("response", "response_item")
  {
    assert "response_item"[..|"response"|] == "response";
  }

  /** `response_has_errors`: Python `True` (here `JBool(true)`) when the
      item's `response` has an `error` entry, and `None` (here `JNull`) otherwise.
      The guard tests `"response"` against the literal `"response_item"`, so
      it never raises. */
  function ResponseHasErrors(item: Json): (r: Result<Json>)
    ensures r.Ok? <==> item.JObj? && "response" in item.fields && Contains(item.fields["response"], "error").Ok?
    ensures r.Ok? ==> (r.value == JBool(true) || r.value == JNull)
    ensures r.Ok? && item.fields["response"].JObj? ==>
              (r.value == JBool(true) <==> "error" in item.fields["response"].fields)
    ensures r.Ok? ==> (r.value == JBool(true) <==> Contains(item.fields["response"], "error") == Ok(true))
    ensures !item.JObj? ==> r == Err(TypeError)
    ensures item.JObj? && "response" !in item.fields ==> r == Err(KeyError("response"))
    ensures item.JObj? && "response" in item.fields && !Contains(item.fields["response"], "error").Ok? ==>
              r == Err(TypeError)
    ensures r != Err(ValueError(NotFoundMessage))
  {
    ResponseKeyInItemName();
    if !IsInfix("response", "response_item") then Err(ValueError(NotFoundMessage))
    else
      var response :- Lookup(item, "response");
      var hasError :- Contains(response, "error");
      if hasError then Ok(JBool(true)) else Ok(JNull)
  }

  /** `json.loads(piece)["message"]`, with `decode` standing for `json.loads`. */
  function DecodedMessage(piece: string, decode: string -> Option<Json>): Result<Json>
  {
    match decode(piece)
    case None => Err(JsonDecodeError)
    case Some(parsed) => Lookup(parsed, "message")
  }

  /** `response_error_message`: piece `[1]` of `response.error.message` cut
      at ` - `, decoded as JSON by `decode`, and that object's `message` field. */
  function ResponseErrorMessage(item: Json, decode: string -> Option<Json>): (r: Result<Json>)
    ensures ResponseHasErrors(item) == Ok(JNull) ==> r == Err(ValueError(NoErrorsMessage))
    ensures (ResponseHasErrors(item) == Ok(JBool(true)) && Path(item, ["response", "error", "message"]).Ok?
             && !Path(item, ["response", "error", "message"]).value.JStr?) ==> r == Err(AttributeError)
    ensures (ResponseHasErrors(item) == Ok(JBool(true)) && Path(item, ["response", "error", "message"]).Ok?
             && Path(item, ["response", "error", "message"]).value.JStr?) ==>
              var text := Path(item, ["response", "error", "message"]).value.s;
              && (!IsInfix(ErrorSeparator, text) ==> r == Err(IndexError))
              && (IsInfix(ErrorSeparator, text) ==> var pieces := Split(text, ErrorSeparator);
                                                    |pieces| >= 2 && r == DecodedMessage(pieces[1], decode))
    ensures r.Ok? ==> exists text :: Path(item, ["response", "error", "message"]) == Ok(JStr(text))
                                     && IsInfix(ErrorSeparator, text)
  {
    var hasErrors :- ResponseHasErrors(item);
    if !Truthy(hasErrors) then Err(ValueError(NoErrorsMessage))
    else
      var message :- Path(item, ["response", "error", "message"]);
      if !message.JStr? then Err(AttributeError)
      else
        var pieces := Split(message.s, ErrorSeparator);
        SplitCutsIffOccurs(message.s, ErrorSeparator);
        if |pieces| < 2 then Err(IndexError)
        else DecodedMessage(pieces[1], decode)
  }

  /** A server error message `prefix - json`, where ` - ` first occurs after
      `prefix` and not again in `json`, yields the `message` field of the
      decoded `json`. */
  lemma ErrorMessageOfDashedText(item: Json, decode: string -> Option<Json>, prefix: string, json: string)
    requires !IsInfix(ErrorSeparator, prefix + " -") && !IsInfix(ErrorSeparator, json)
    requires Path(item, ["response", "error", "message"]) == Ok(JStr(prefix + ErrorSeparator + json))
    ensures ResponseErrorMessage(item, decode) == DecodedMessage(json, decode)
  {
    var text := prefix + ErrorSeparator + json;
    assert ErrorSeparator[..|ErrorSeparator| - 1] == " -";
    SplitFirstOccurrence(prefix, json, ErrorSeparator);
    SplitWithoutSeparator(json, ErrorSeparator);
    assert Split(text, ErrorSeparator)[1] == json;
    SplitCutsIffOccurs(text, ErrorSeparator);
    var response := item.fields["response"];
    assert Lookup(item, "response") == Ok(response);
    assert response.JObj? && "error" in response.fields;
  }

  /** True when the item is a dict whose `name` is `name`. */
  predicate Named(item: Json, name: string)
  {
    item.JObj? && "name" in item.fields && item.fields["name"] == JStr(name)
  }

  /** The slot filled from an item's `response`. */
  function SlotOf(item: Json): Result<Slot>
  {
    var status :- Path(item, ["response", "status"]);
    var code :- Path(item, ["response", "http_status"]);
    var data :- Path(item, ["response", "data"]);
    Ok(Slot(status, code, data))
  }

  /** A slot is read exactly when the item's `response` is a dict with
      `status`, `http_status` and `data`, and it holds those three values. */
  lemma SlotOfFields(item: Json)
    ensures SlotOf(item).Ok? <==> item.JObj? && "response" in item.fields && item.fields["response"].JObj?
                                  && "status" in item.fields["response"].fields
                                  && "http_status" in item.fields["response"].fields
                                  && "data" in item.fields["response"].fields
    ensures SlotOf(item).Ok? ==>
              var response := item.fields["response"].fields;
              SlotOf(item).value == Slot(response["status"], response["http_status"], response["data"])
  {
    if item.JObj? && "response" in item.fields {
      var response := item.fields["response"];
      assert ["response", "status"][1..] == ["status"];
      assert ["response", "http_status"][1..] == ["http_status"];
      assert ["response", "data"][1..] == ["data"];
      assert Lookup(item, "response") == Ok(response);
    }
  }

  /** One iteration of the loop over the page's resource responses: a
      response named after a slot refills that slot, and a response with an
      error replaces the recorded error message. */
  function PageStep(state: PageState, item: Json, decode: string -> Option<Json>): (r: Result<PageState>)
    ensures r.Ok? ==> (Named(item, BoardResourceName) ==> SlotOf(item) == Ok(r.value.board))
                      && (!Named(item, BoardResourceName) ==> r.value.board == state.board)
                      && (Named(item, BaseResourceName) ==> SlotOf(item) == Ok(r.value.base))
                      && (!Named(item, BaseResourceName) ==> r.value.base == state.base)
    ensures r.Ok? ==> (ResponseHasErrors(item) == Ok(JBool(true)) ==> ResponseErrorMessage(item, decode) == Ok(r.value.error))
                      && (ResponseHasErrors(item) == Ok(JNull) ==> r.value.error == state.error)
    ensures r.Ok? ==> ResponseHasErrors(item).Ok?
  {
    var name :- Lookup(item, "name");
    var base :- if name == JStr(BaseResourceName) then SlotOf(item) else Ok(state.base);
    var board :- if name == JStr(BoardResourceName) then SlotOf(item) else Ok(state.board);
    var hasErrors :- ResponseHasErrors(item);
    var error :- if Truthy(hasErrors) then ResponseErrorMessage(item, decode) else Ok(state.error);
    Ok(PageState(base, board, error))
  }

  /** The loop of `get_page_data` over the already decoded `resourceResponses`,
      starting from empty slots and no error. */
  function ReadPage(items: seq<Json>, decode: string -> Option<Json>): Result<PageState>
    decreases |items|
  {
    if |items| == 0 then Ok(PageState(Unset, Unset, JNull))
    else
      var before :- ReadPage(items[..|items| - 1], decode);
      PageStep(before, items[|items| - 1], decode)
  }

  /** A response the loop body gets through: a dict with a `name`, whose
      slot fields can be read when it is named after a slot, whose error
      test does not raise, and whose error message can be extracted when
      it reports one. */
  predicate Readable(item: Json, decode: string -> Option<Json>)
  {
    item.JObj? && "name" in item.fields
    && ((Named(item, BaseResourceName) || Named(item, BoardResourceName)) ==> SlotOf(item).Ok?)
    && ResponseHasErrors(item).Ok?
    && (ResponseHasErrors(item) == Ok(JBool(true)) ==> ResponseErrorMessage(item, decode).Ok?)
  }

  /** One loop iteration succeeds exactly when its response is readable,
      whatever was read before. */
  lemma PageStepSucceeds(state: PageState, item: Json, decode: string -> Option<Json>)
    ensures PageStep(state, item, decode).Ok? <==> Readable(item, decode)
  {
  }

  /** Reading the page succeeds exactly when every response is readable. */
  lemma {:induction false} ReadPageSucceeds(items: seq<Json>, decode: string -> Option<Json>)
    ensures ReadPage(items, decode).Ok? <==> forall i :: 0 <= i < |items| ==> Readable(items[i], decode)
    decreases |items|
  {
    if |items| > 0 {
      var init := items[..|items| - 1];
      var last := items[|items| - 1];
      ReadPageSucceeds(init, decode);
      ReadPageUnfold(items, decode);
      if ReadPage(init, decode).Ok? {
        PageStepSucceeds(ReadPage(init, decode).value, last, decode);
        ReadableSplit(items, init, decode);
      } else {
        var j :| 0 <= j < |init| && !Readable(init[j], decode);
        assert init[j] == items[j];
      }
    }
  }

  /** Every response is readable exactly when all but the last are and the last is. */
  lemma ReadableSplit(items: seq<Json>, init: seq<Json>, decode: string -> Option<Json>)
    requires |items| > 0 && init == items[..|items| - 1]
    ensures (forall i :: 0 <= i < |items| ==> Readable(items[i], decode))
            <==> (forall i :: 0 <= i < |init| ==> Readable(init[i], decode)) && Readable(items[|items| - 1], decode)
  {
    assert forall i :: 0 <= i < |init| ==> init[i] == items[i];
  }

  /** One unfolding of `ReadPage`: read all but the last response, then step. */
  lemma ReadPageUnfold(items: seq<Json>, decode: string -> Option<Json>)
    requires |items| > 0
    ensures var before := ReadPage(items[..|items| - 1], decode);
            ReadPage(items, decode)
            == if before.Ok? then PageStep(before.value, items[|items| - 1], decode) else Err(before.error)
  {
  }

  /** Without a board response the board slot stays unset. */
  lemma {:induction false} ReadPageWithoutBoard(items: seq<Json>, decode: string -> Option<Json>)
    requires ReadPage(items, decode).Ok?
    requires forall i :: 0 <= i < |items| ==> !Named(items[i], BoardResourceName)
    ensures ReadPage(items, decode).value.board == Unset
    decreases |items|
  {
    if |items| > 0 {
      var init := items[..|items| - 1];
      ReadPageLast(items, decode);
      assert forall i :: 0 <= i < |init| ==> init[i] == items[i];
      ReadPageWithoutBoard(init, decode);
      PageStepBoardUnset(ReadPage(init, decode).value, items[|items| - 1], decode);
    }
  }

  /** One board response anywhere fills the board slot for good. */
  lemma {:induction false} ReadPageWithBoard(items: seq<Json>, decode: string -> Option<Json>, i: nat)
    requires ReadPage(items, decode).Ok?
    requires i < |items| && Named(items[i], BoardResourceName)
    ensures ReadPage(items, decode).value.board != Unset
    decreases |items|
  {
    var init := items[..|items| - 1];
    ReadPageLast(items, decode);
    if i < |items| - 1 {
      assert init[i] == items[i];
      ReadPageWithBoard(init, decode, i);
    }
    PageStepBoardUnset(ReadPage(init, decode).value, items[|items| - 1], decode);
  }

  /** After one response the board slot is unset exactly when it was unset
      before and the response is not the board resource. */
  lemma PageStepBoardUnset(state: PageState, item: Json, decode: string -> Option<Json>)
    requires PageStep(state, item, decode).Ok?
    ensures PageStep(state, item, decode).value.board == Unset
            <==> state.board == Unset && !Named(item, BoardResourceName)
  {
  }

  /** A page read successfully was read successfully up to its last response,
      which was then applied with `PageStep`. */
  lemma ReadPageLast(items: seq<Json>, decode: string -> Option<Json>)
    requires |items| > 0 && ReadPage(items, decode).Ok?
    ensures ReadPage(items[..|items| - 1], decode).Ok?
    ensures PageStep(ReadPage(items[..|items| - 1], decode).value, items[|items| - 1], decode)
            == ReadPage(items, decode)
  {
  }

  /** The board slot comes from the last response named after the board resource. */
  lemma {:induction false} ReadPageBoardSlot(items: seq<Json>, decode: string -> Option<Json>, i: nat)
    requires ReadPage(items, decode).Ok?
    requires i < |items| && Named(items[i], BoardResourceName)
    requires forall j :: i < j < |items| ==> !Named(items[j], BoardResourceName)
    ensures SlotOf(items[i]) == Ok(ReadPage(items, decode).value.board)
    decreases |items|
  {
    var init := items[..|items| - 1];
    var before := ReadPage(init, decode).value;
    var page := ReadPage(items, decode).value;
    assert PageStep(before, items[|items| - 1], decode) == Ok(page);
    if i < |items| - 1 {
      assert init[i] == items[i];
      assert forall j :: i < j < |init| ==> init[j] == items[j];
      ReadPageBoardSlot(init, decode, i);
    }
  }

  /** With no response reporting an error, the recorded error stays `None`. */
  lemma {:induction false} ReadPageNoError(items: seq<Json>, decode: string -> Option<Json>)
    requires ReadPage(items, decode).Ok?
    requires forall i :: 0 <= i < |items| ==> ResponseHasErrors(items[i]) == Ok(JNull)
    ensures ReadPage(items, decode).value.error == JNull
    decreases |items|
  {
    if |items| > 0 {
      var init := items[..|items| - 1];
      assert forall i :: 0 <= i < |init| ==> init[i] == items[i];
      ReadPageNoError(init, decode);
      var before := ReadPage(init, decode).value;
      assert PageStep(before, items[|items| - 1], decode) == ReadPage(items, decode);
    }
  }

  /** The recorded error is the message of the last response reporting one. */
  lemma {:induction false} ReadPageLastError(items: seq<Json>, decode: string -> Option<Json>, i: nat)
    requires ReadPage(items, decode).Ok?
    requires i < |items| && ResponseHasErrors(items[i]) == Ok(JBool(true))
    requires forall j :: i < j < |items| ==> ResponseHasErrors(items[j]) == Ok(JNull)
    ensures ResponseErrorMessage(items[i], decode) == Ok(ReadPage(items, decode).value.error)
    decreases |items|
  {
    var init := items[..|items| - 1];
    var before := ReadPage(init, decode).value;
    var page := ReadPage(items, decode).value;
    assert PageStep(before, items[|items| - 1], decode) == Ok(page);
    if i < |items| - 1 {
      assert init[i] == items[i];
      assert forall j :: i < j < |init| ==> init[j] == items[j];
      ReadPageLastError(init, decode, i);
    }
  }

  /** `user_boards` given the page state: a reported error aborts before the
      board data is read; otherwise the board data must map to a non-empty list. */
  function UserBoards(page: PageState): (r: Result<seq<Board>>)
    ensures page.error != JNull ==> r == Err(UserBoardException(page.error))
    ensures page.error == JNull && page.board.Slot? && page.board.data == JArr([])
            ==> r == Err(UserBoardException(JStr(NoBoardsMessage)))
    ensures page.error == JNull && page.board == Unset ==> r == Err(AttributeError)
    ensures page.error == JNull && page.board.Slot? && !page.board.data.JArr?
            ==> r == Err(ValueError(WrongObjectMessage))
    ensures r.Ok? ==> |r.value| > 0 && page.board.Slot? && UserProfileBoardResource(page.board.data) == Ok(r.value)
    ensures page.error == JNull && page.board.Slot? && UserProfileBoardResource(page.board.data).Ok?
            && |UserProfileBoardResource(page.board.data).value| > 0
            ==> r == UserProfileBoardResource(page.board.data)
  {
    if page.error != JNull then Err(UserBoardException(page.error))
    else if page.board.Unset? then Err(AttributeError)
    else
      var boards :- UserProfileBoardResource(page.board.data);
      if |boards| > 0 then Ok(boards) else Err(UserBoardException(JStr(NoBoardsMessage)))
  }
}
