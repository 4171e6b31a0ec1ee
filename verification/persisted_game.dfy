/** The game's two `useLocalStorageState` cells, `history` and `currentStep`, over one store:
    how a game is encoded into them, read back on mount, and written after each event. */
module PersistedGame {
  import opened Wrappers
  import opened JsValues
  import opened LocalStorageState
  import opened TicTacToe
  import opened GameHistory

  const HistoryKey: string := "history"
  const StepKey: string := "currentStep"

  /** A square as a JavaScript value: `null`, `'X'` or `'O'`. */
  function EncodeSquare(s: Square): JsValue {
    match s
    case None => Null
    case Some(X) => Str("X")
    case Some(O) => Str("O")
  }

  function DecodeSquare(v: JsValue): Option<Square> {
    match v
    case Null => Some(None)
    case Str(t) =>
      if t == "X" then Some(Some(X))
      else if t == "O" then Some(Some(O))
      else None
    case _ => None
  }

  function EncodeSquares(squares: seq<Square>): (vs: seq<JsValue>)
    ensures |vs| == |squares|
  {
    if |squares| == 0 then [] else [EncodeSquare(squares[0])] + EncodeSquares(squares[1..])
  }

  function DecodeSquares(vs: seq<JsValue>): (r: Option<seq<Square>>)
    ensures r.Some? ==> |r.value| == |vs|
  {
    if |vs| == 0 then Some([])
    else match (DecodeSquare(vs[0]), DecodeSquares(vs[1..]))
      case (Some(s), Some(rest)) => Some([s] + rest)
      case _ => None
  }

  /** A board as an array of nine squares. */
  function EncodeBoard(b: Board): JsValue {
    Arr(EncodeSquares(b))
  }

  /** An array of nine squares as a board; anything else is not a board. */
  function DecodeBoard(v: JsValue): Option<Board> {
    if !v.Arr? then None
    else match DecodeSquares(v.items)
      case Some(squares) => if |squares| == 9 then Some(squares) else None
      case None => None
  }

  function EncodeBoards(history: seq<Board>): (vs: seq<JsValue>)
    ensures |vs| == |history|
  {
    if |history| == 0 then [] else [EncodeBoard(history[0])] + EncodeBoards(history[1..])
  }

  function DecodeBoards(vs: seq<JsValue>): (r: Option<seq<Board>>)
    ensures r.Some? ==> |r.value| == |vs|
  {
    if |vs| == 0 then Some([])
    else match (DecodeBoard(vs[0]), DecodeBoards(vs[1..]))
      case (Some(b), Some(rest)) => Some([b] + rest)
      case _ => None
  }

  /** The history as the array of boards the `history` cell holds. */
  function EncodeHistory(history: seq<Board>): JsValue {
    Arr(EncodeBoards(history))
  }

  function DecodeHistory(v: JsValue): Option<seq<Board>> {
    if v.Arr? then DecodeBoards(v.items) else None
  }

  lemma {:induction false} SquaresRoundTrip(squares: seq<Square>)
    ensures DecodeSquares(EncodeSquares(squares)) == Some(squares)
  {
    if |squares| > 0 {
      SquaresRoundTrip(squares[1..]);
      assert EncodeSquares(squares)[1..] == EncodeSquares(squares[1..]);
      assert [squares[0]] + squares[1..] == squares;
    }
  }

  lemma {:induction false} BoardsRoundTrip(history: seq<Board>)
    ensures DecodeBoards(EncodeBoards(history)) == Some(history)
  {
    if |history| > 0 {
      SquaresRoundTrip(history[0]);
      BoardsRoundTrip(history[1..]);
      assert EncodeBoards(history)[1..] == EncodeBoards(history[1..]);
      assert [history[0]] + history[1..] == history;
    }
  }

  /** Decoding an encoded history gives it back, board for board. */
  lemma HistoryRoundTrip(history: seq<Board>)
    ensures DecodeHistory(EncodeHistory(history)) == Some(history)
  {
    BoardsRoundTrip(history);
  }

  /** `[Array(9).fill(null)]`, the `history` cell's default. */
  const HistoryDefault: DefaultState := Value(EncodeHistory([EmptyBoard]))

  /** `0`, the `currentStep` cell's default. */
  const StepDefault: DefaultState := Value(Num(0))

  /** A running game and the store its cells write to. */
  datatype Session = Session(game: Game, store: Store)

  /** The store holds the encoded history and cursor of the game, as the runtime's JSON wrote them. */
  predicate Synced(s: Session, json: Codec) {
    && Valid(s.game)
    && GetItem(s.store, HistoryKey) == Some(json.serialize(EncodeHistory(s.game.history)))
    && GetItem(s.store, StepKey) == Some(json.serialize(Num(s.game.step)))
  }

  /** The values the two cells hold read as a game with a valid cursor; None when they do not
      (a stored cursor out of range, or a stored history that is not a list of boards). */
  function DecodeGame(historyValue: JsValue, stepValue: JsValue): (r: Option<Game>)
    ensures r.Some? ==> Valid(r.value)
    ensures r.Some? <==>
      DecodeHistory(historyValue).Some? && stepValue.Num? && 0 <= stepValue.n < |DecodeHistory(historyValue).value|
    ensures r.Some? ==> r.value == Game(DecodeHistory(historyValue).value, stepValue.n)
  {
    match (DecodeHistory(historyValue), stepValue)
    case (Some(history), Num(step)) =>
      if 0 <= step < |history| then Some(Game(history, step)) else None
    case _ => None
  }

  /** Mounting the game: both cells are initialised from the store, with no options, then both
      write-back effects run. */
  function MountGame(store: Store, json: Codec): (r: Option<Session>)
    ensures var hv := InitialState(store, HistoryKey, HistoryDefault, ResolveCodec(NoOptions, json)).state;
      var sv := InitialState(store, StepKey, StepDefault, ResolveCodec(NoOptions, json)).state;
      && (r.None? <==> DecodeGame(hv, sv).None?)
      && (r.Some? ==> DecodeGame(hv, sv) == Some(r.value.game))
      && (r.Some? ==> EncodeHistory(r.value.game.history) == hv && Num(r.value.game.step) == sv)
    ensures r.Some? ==> Synced(r.value, json)
    ensures r.Some? ==> forall k :: k != HistoryKey && k != StepKey ==> GetItem(r.value.store, k) == GetItem(store, k)
  {
    var h := Mount(store, HistoryKey, Some(HistoryDefault), NoOptions, json);
    var c := Mount(store, StepKey, Some(StepDefault), NoOptions, json);
    match DecodeGame(h.cell.state, c.cell.state)
    case Some(g) =>
      HistoryRoundTripMeansSameText(h.cell.state, g.history);
      Some(Session(g, Persist(h.store, c.cell)))
    case None => None
  }

  /** A history value that decodes to `history` is the encoding of `history`. */
  lemma HistoryRoundTripMeansSameText(v: JsValue, history: seq<Board>)
    requires DecodeHistory(v) == Some(history)
    ensures v == EncodeHistory(history)
  {
    DecodeBoardsInjective(v.items, history);
  }

  lemma {:induction false} DecodeSquaresInjective(vs: seq<JsValue>, squares: seq<Square>)
    requires DecodeSquares(vs) == Some(squares)
    ensures vs == EncodeSquares(squares)
  {
    if |vs| > 0 {
      DecodeSquaresInjective(vs[1..], squares[1..]);
      assert vs == [vs[0]] + vs[1..];
    }
  }

  lemma {:induction false} DecodeBoardsInjective(vs: seq<JsValue>, history: seq<Board>)
    requires DecodeBoards(vs) == Some(history)
    ensures vs == EncodeBoards(history)
  {
    if |vs| > 0 {
      DecodeSquaresInjective(vs[0].items, history[0]);
      DecodeBoardsInjective(vs[1..], history[1..]);
      assert vs == [vs[0]] + vs[1..];
    }
  }

  /** A click: when accepted both cells change and both are written; when ignored nothing is. */
  function SessionSelect(s: Session, square: int, json: Codec): (r: Session)
    requires Valid(s.game) && 0 <= square < 9
    ensures r.game == SelectSquare(s.game, square)
    ensures Blocked(s.game, square) ==> r == s
    ensures Synced(s, json) ==> Synced(r, json)
    ensures forall k :: k != HistoryKey && k != StepKey ==> GetItem(r.store, k) == GetItem(s.store, k)
  {
    var g := SelectSquare(s.game, square);
    if Blocked(s.game, square) then s
    else Session(g, WriteGame(s.store, g, json))
  }

  /** A move button: only the `currentStep` cell changes and is written. */
  function SessionGoTo(s: Session, move: int, json: Codec): (r: Session)
    requires Valid(s.game) && 0 <= move < |s.game.history|
    ensures r.game == GoTo(s.game, move)
    ensures Synced(s, json) ==> Synced(r, json)
    ensures GetItem(r.store, HistoryKey) == GetItem(s.store, HistoryKey)
    ensures forall k :: k != StepKey ==> GetItem(r.store, k) == GetItem(s.store, k)
  {
    var g := GoTo(s.game, move);
    Session(g, Persist(s.store, Cell(StepKey, ResolveCodec(NoOptions, json), Num(move))))
  }

  /** The restart button: both cells are reset and written. */
  function SessionRestart(s: Session, json: Codec): (r: Session)
    ensures r.game == Restart(s.game)
    ensures Synced(r, json)
    ensures forall k :: k != HistoryKey && k != StepKey ==> GetItem(r.store, k) == GetItem(s.store, k)
  {
    var g := Restart(s.game);
    Session(g, WriteGame(s.store, g, json))
  }

  /** The two write-back effects for a game whose cells both changed. */
  function WriteGame(store: Store, g: Game, json: Codec): (r: Store)
    requires Valid(g)
    ensures Synced(Session(g, r), json)
    ensures forall k :: k != HistoryKey && k != StepKey ==> GetItem(r, k) == GetItem(store, k)
  {
    var codec := ResolveCodec(NoOptions, json);
    Persist(Persist(store, Cell(HistoryKey, codec, EncodeHistory(g.history))), Cell(StepKey, codec, Num(g.step)))
  }

  /** The runtime's JSON reads back both encoded cells of `g`. */
  predicate GameRoundTrips(json: Codec, g: Game) {
    RoundTrips(json, EncodeHistory(g.history)) && RoundTrips(json, Num(g.step))
  }

  /** With nothing stored under either key, and `JSON.parse(null)` giving `null`, the game mounts at
      the start: one empty board, the cursor on it. */
  lemma MountEmptyStore(store: Store, json: Codec)
    requires HistoryKey !in store && StepKey !in store
    requires json.deserialize(None) == Null
    ensures MountGame(store, json).Some?
    ensures MountGame(store, json).value.game == Start()
  {
    HistoryRoundTrip([EmptyBoard]);
  }

  /** A remount over a synchronized store restores the same game and leaves the store as it is.
      The stored cursor `0` decodes to a falsy value and is replaced by the default, which is `0` too. */
  lemma ReloadRestoresGame(s: Session, json: Codec)
    requires Synced(s, json)
    requires GameRoundTrips(json, s.game)
    ensures MountGame(s.store, json) == Some(s)
  {
    HistoryRoundTrip(s.game.history);
    var h := Mount(s.store, HistoryKey, Some(HistoryDefault), NoOptions, json);
    var c := Mount(s.store, StepKey, Some(StepDefault), NoOptions, json);
    assert h.cell.state == EncodeHistory(s.game.history);
    assert c.cell.state == Num(s.game.step);
    assert Persist(h.store, c.cell) == s.store;
  }

  /** Whatever the events, the store keeps up with the game they lead to, so a reload
      (through a JSON that reads that game back) restores it. */
  lemma {:induction false} RunSessionKeepsSynced(s: Session, events: seq<Event>, json: Codec)
    requires Synced(s, json)
    ensures var r := RunSession(s, events, json);
      r.Some? ==> Synced(r.value, json) && r.value.game == Run(s.game, events).value
    ensures var r := RunSession(s, events, json);
      r.Some? && GameRoundTrips(json, r.value.game) ==> MountGame(r.value.store, json) == r
    decreases |events|
  {
    if |events| > 0 && Offered(s.game, events[0]) {
      RunSessionKeepsSynced(ApplySession(s, events[0], json), events[1..], json);
    } else if |events| == 0 {
      if GameRoundTrips(json, s.game) {
        ReloadRestoresGame(s, json);
      }
    }
  }

  /** One event on a session. */
  function ApplySession(s: Session, e: Event, json: Codec): (r: Session)
    requires Valid(s.game) && Offered(s.game, e)
    ensures r.game == Apply(s.game, e)
    ensures Synced(s, json) ==> Synced(r, json)
  {
    match e
    case Click(square) => SessionSelect(s, square, json)
    case JumpTo(move) => SessionGoTo(s, move, json)
    case RestartClick => SessionRestart(s, json)
  }

  function RunSession(s: Session, events: seq<Event>, json: Codec): (r: Option<Session>)
    requires Valid(s.game)
    ensures r.Some? <==> Run(s.game, events).Some?
    decreases |events|
  {
    if |events| == 0 then Some(s)
    else if !Offered(s.game, events[0]) then None
    else RunSession(ApplySession(s, events[0], json), events[1..], json)
  }
}
