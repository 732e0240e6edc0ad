/** The admin panel: every stored message becomes a button, five to an
    action row, labelled with a short preview and addressed by its position
    in the message store; a click on a button re-sends that message. */
module Panel {
  import opened Text

  /** Buttons per action row. */
  const ROW_WIDTH: nat := 5
  /** Characters of a message kept in its button label. */
  const LABEL_WIDTH: nat := 4
  const ELLIPSIS := "..."
  const BUTTON_PREFIX := "send_msg_"

  datatype Button = Button(customId: string, caption: string)

  datatype PanelReply = NoData | Rows(rows: seq<seq<Button>>)

  /** The preview of a message on its button. */
  function Label(msg: string): (r: string)
    ensures |r| <= LABEL_WIDTH + |ELLIPSIS|
    ensures |msg| <= LABEL_WIDTH ==> r == msg
    ensures |msg| > LABEL_WIDTH ==>
      |r| == LABEL_WIDTH + |ELLIPSIS| && StartsWith(msg, r[..LABEL_WIDTH]) && r[LABEL_WIDTH..] == ELLIPSIS
  {
    if |msg| > LABEL_WIDTH then msg[..LABEL_WIDTH] + ELLIPSIS else msg
  }

  /** The custom id carried by the button for message `index`. */
  function ButtonId(index: nat): (r: string)
    ensures StartsWith(r, BUTTON_PREFIX)
    ensures |r| > |BUTTON_PREFIX| && AllDigits(r[|BUTTON_PREFIX|..])
  {
    BUTTON_PREFIX + DecimalString(index)
  }

  /** The index a clicked button id names: the third `_`-separated field,
      read as a number. */
  function ParseButtonId(customId: string): (r: Option<nat>)
    ensures !StartsWith(customId, BUTTON_PREFIX) ==> r == None
  {
    if !StartsWith(customId, BUTTON_PREFIX) then None
    else
      var fields := Split(customId, '_');
      if |fields| < 3 then None else ParseInt(fields[2])
  }

  /** Parsing a button id gives back the index it was made from. */
  lemma ButtonIdRoundTrip(index: nat)
    ensures ParseButtonId(ButtonId(index)) == Some(index)
  {
    var digits := DecimalString(index);
    var id := ButtonId(index);
    assert forall k :: 0 <= k < |digits| ==> digits[k] != '_';
    assert id == "send" + ['_'] + ("msg" + ['_'] + digits);
    assert StartsWith(id, BUTTON_PREFIX);
    SplitAtFirstSeparator("send", '_', "msg" + ['_'] + digits);
    SplitAtFirstSeparator("msg", '_', digits);
    SplitWithoutSeparator(digits, '_');
    assert Split(id, '_') == ["send", "msg", digits];
    DecimalRoundTrip(index);
  }

  /** Distinct messages get distinct button ids. */
  lemma ButtonIdInjective(i: nat, j: nat)
    requires ButtonId(i) == ButtonId(j)
    ensures i == j
  {
    ButtonIdRoundTrip(i);
    ButtonIdRoundTrip(j);
  }

  /** The button of message `k`: its id names `k` and its caption is the
      message's preview. */
  function ButtonFor(messages: seq<string>, k: nat): (b: Button)
    requires k < |messages|
    ensures ParseButtonId(b.customId) == Some(k)
    ensures b.caption == Label(messages[k])
    ensures |b.caption| <= LABEL_WIDTH + |ELLIPSIS|
    ensures |messages[k]| <= LABEL_WIDTH ==> b.caption == messages[k]
  {
    ButtonIdRoundTrip(k);
    Button(ButtonId(k), Label(messages[k]))
  }

  /** One button per message, in store order: button `k` is addressed to
      message `k` and previews it. */
  function PanelButtons(messages: seq<string>): (bs: seq<Button>)
    ensures |bs| == |messages|
    ensures forall k :: 0 <= k < |bs| ==>
      ParseButtonId(bs[k].customId) == Some(k) && bs[k].caption == Label(messages[k])
  {
    seq(|messages|, k requires 0 <= k < |messages| => ButtonFor(messages, k))
  }

  /** The buttons of all rows, row after row. */
  function Flatten(rows: seq<seq<Button>>): seq<Button>
    decreases |rows|
  {
    if rows == [] then [] else Flatten(rows[..|rows| - 1]) + rows[|rows| - 1]
  }

  lemma FlattenSnoc(rows: seq<seq<Button>>, row: seq<Button>)
    ensures Flatten(rows + [row]) == Flatten(rows) + row
  {
  }

  ghost predicate FullRows(rows: seq<seq<Button>>)
  {
    forall i :: 0 <= i < |rows| ==> |rows[i]| == ROW_WIDTH
  }

  lemma {:induction false} FlattenFullLength(rows: seq<seq<Button>>)
    requires FullRows(rows)
    ensures |Flatten(rows)| == ROW_WIDTH * |rows|
    decreases |rows|
  {
    if rows != [] {
      FlattenFullLength(rows[..|rows| - 1]);
    }
  }

  /** With full rows in front, button `j` of row `i` sits at position
      5i + j of the flattened panel. */
  lemma {:induction false} FlattenAt(rows: seq<seq<Button>>, i: nat, j: nat)
    requires i < |rows| && j < |rows[i]|
    requires FullRows(rows[..i])
    ensures ROW_WIDTH * i + j < |Flatten(rows)|
    ensures Flatten(rows)[ROW_WIDTH * i + j] == rows[i][j]
    decreases |rows|
  {
    var front := rows[..|rows| - 1];
    if i == |rows| - 1 {
      assert front == rows[..i];
      FlattenFullLength(front);
    } else {
      assert front[..i] == rows[..i];
      FlattenAt(front, i, j);
    }
  }

  /** The layout of a rendered panel: ceil(N/5) rows, every row but the
      last full, none empty, and the buttons, row after row, those of the
      messages in store order. */
  ghost predicate PanelLayout(messages: seq<string>, rows: seq<seq<Button>>)
  {
    && ROW_WIDTH * (|rows| - 1) < |messages| <= ROW_WIDTH * |rows|
    && (forall i :: 0 <= i < |rows| ==> 1 <= |rows[i]| <= ROW_WIDTH)
    && (forall i :: 0 <= i < |rows| - 1 ==> |rows[i]| == ROW_WIDTH)
    && Flatten(rows) == PanelButtons(messages)
  }

  /** Message `index` ends a row exactly when it is the fifth in it. */
  lemma RowBoundary(fullRows: nat, inRow: nat)
    requires 1 <= inRow <= ROW_WIDTH
    ensures (ROW_WIDTH * fullRows + inRow) % ROW_WIDTH == 0 <==> inRow == ROW_WIDTH
  {
  }

  /** What the panel loop has built after the first `index` messages:
      full rows, then the row being filled, holding the first `index`
      buttons in order. */
  ghost predicate Built(messages: seq<string>, rows: seq<seq<Button>>, currentRow: seq<Button>, index: nat)
  {
    && index <= |messages|
    && (index == 0 ==> rows == [] && currentRow == [])
    && (index > 0 ==> 1 <= |currentRow| <= ROW_WIDTH)
    && ROW_WIDTH * |rows| + |currentRow| == index
    && FullRows(rows)
    && Flatten(rows) + currentRow == PanelButtons(messages)[..index]
  }

  /** One step of the panel loop keeps what has been built consistent. */
  lemma BuiltNext(messages: seq<string>, rows: seq<seq<Button>>, currentRow: seq<Button>, index: nat)
    requires Built(messages, rows, currentRow, index) && index < |messages|
    ensures var newRow := index % ROW_WIDTH == 0 && index > 0;
      var rows' := if newRow then rows + [currentRow] else rows;
      var row' := (if newRow then [] else currentRow) + [ButtonFor(messages, index)];
      Built(messages, rows', row', index + 1)
  {
    var buttons := PanelButtons(messages);
    assert buttons[index] == ButtonFor(messages, index);
    assert buttons[..index + 1] == buttons[..index] + [ButtonFor(messages, index)];
    if index > 0 {
      RowBoundary(|rows|, |currentRow|);
      if index % ROW_WIDTH == 0 {
        FlattenSnoc(rows, currentRow);
      }
    }
  }

  /** Closing the last row gives the panel's layout. */
  lemma BuiltComplete(messages: seq<string>, rows: seq<seq<Button>>, currentRow: seq<Button>)
    requires |messages| > 0 && Built(messages, rows, currentRow, |messages|)
    ensures PanelLayout(messages, rows + [currentRow])
  {
  }

  /** The panel command: no messages, no panel; otherwise one button per
      message, a new row started before every fifth. */
  method RenderPanel(messages: seq<string>) returns (reply: PanelReply)
    ensures messages == [] <==> reply == NoData
    ensures reply.Rows? ==> PanelLayout(messages, reply.rows)
  {
    if |messages| == 0 {
      return NoData;
    }
    var rows: seq<seq<Button>> := [];
    var currentRow: seq<Button> := [];
    var index := 0;
    while index < |messages|
      invariant Built(messages, rows, currentRow, index)
    {
      BuiltNext(messages, rows, currentRow, index);
      if index % ROW_WIDTH == 0 && index > 0 {
        rows := rows + [currentRow];
        currentRow := [];
      }
      currentRow := currentRow + [ButtonFor(messages, index)];
      index := index + 1;
    }
    BuiltComplete(messages, rows, currentRow);
    rows := rows + [currentRow];
    reply := Rows(rows);
  }

  /** Row `i` of a rendered panel holds messages 5i .. 5i+4: button `j` of
      it is the button of message 5i + j, and its id parses back to 5i + j. */
  lemma RowHoldsConsecutiveMessages(messages: seq<string>, rows: seq<seq<Button>>, i: nat, j: nat)
    requires PanelLayout(messages, rows)
    requires i < |rows| && j < |rows[i]|
    ensures ROW_WIDTH * i + j < |messages|
    ensures rows[i][j] == ButtonFor(messages, ROW_WIDTH * i + j)
    ensures ParseButtonId(rows[i][j].customId) == Some(ROW_WIDTH * i + j)
  {
    FlattenAt(rows, i, j);
    ButtonIdRoundTrip(ROW_WIDTH * i + j);
  }

  /** A click on a button: the message its id names is re-sent when it
      exists and is not empty; anything else is ignored. */
  function Click(messages: seq<string>, customId: string): (r: Option<string>)
    ensures r.Some? ==> r.value != "" && r.value in messages
    ensures !StartsWith(customId, BUTTON_PREFIX) ==> r == None
  {
    match ParseButtonId(customId)
    case None => None
    case Some(index) =>
      if index < |messages| && messages[index] != "" then Some(messages[index]) else None
  }

  /** Clicking the button made for message `index` re-sends exactly that
      message if it is still there and not empty, and nothing otherwise
      (the store may have changed since the panel was shown). */
  lemma ClickButtonFor(messages: seq<string>, index: nat)
    ensures Click(messages, ButtonId(index))
         == if index < |messages| && messages[index] != "" then Some(messages[index]) else None
  {
    ButtonIdRoundTrip(index);
  }
}
