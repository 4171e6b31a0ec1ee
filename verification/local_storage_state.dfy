/** The `useLocalStorageState` hook: a state cell seeded from a key-value store through a
    codec, and written back to the store after every change of its state. */
module LocalStorageState {
  import opened Wrappers
  import opened JsValues

  /** The browser's `localStorage`: text values under text keys. */
  type Store = map<string, string>

  /** `localStorage.getItem(key)`: the stored text, or `null` (None) when there is no entry. */
  function GetItem(store: Store, key: string): Option<string> {
    if key in store then Some(store[key]) else None
  }

  /** `localStorage.setItem(key, text)`: the entry for `key` becomes `text`, no other entry moves. */
  function SetItem(store: Store, key: string, text: string): (r: Store)
    ensures GetItem(r, key) == Some(text)
    ensures forall k :: k != key ==> GetItem(r, k) == GetItem(store, k)
    ensures r.Keys == store.Keys + {key}
  {
    store[key := text]
  }

  /** A serializer and a deserializer. The deserializer is applied to what `getItem`
      returns, so it receives `null` (None) when the key has no entry. */
  datatype Codec = Codec(serialize: JsValue -> string, deserialize: Option<string> -> JsValue)

  /** The options object `{serializer, deserializer}`; a field left out is None. */
  datatype Options = Options(
    serializer: Option<JsValue -> string>,
    deserializer: Option<Option<string> -> JsValue>)

  /** The options argument when the caller passes none (`= {}`). */
  const NoOptions: Options := Options(None, None)

  /** Fills each missing option with the runtime's `JSON.stringify` / `JSON.parse`,
      which the model receives as the codec `json`. */
  function ResolveCodec(options: Options, json: Codec): Codec {
    Codec(
      if options.serializer.Some? then options.serializer.value else json.serialize,
      if options.deserializer.Some? then options.deserializer.value else json.deserialize)
  }

  /** The `defaultState` argument: a plain value, or an initializer function
      (the `typeof defaultState === 'function'` case). */
  datatype DefaultState = Value(v: JsValue) | Initializer(produce: () -> JsValue)

  /** An omitted `defaultState` argument is the empty string. */
  const OmittedDefault: DefaultState := Value(Str(""))

  /** JavaScript applies the parameter default both when the argument is left out and when the
      caller passes `undefined`. */
  function ResolveDefault(defaultState: Option<DefaultState>): DefaultState {
    if defaultState.Some? && defaultState.value != Value(Undefined) then defaultState.value
    else OmittedDefault
  }

  /** The default's value: the initializer's result, or the plain value as it is. */
  function DefaultValue(d: DefaultState): JsValue {
    match d
    case Value(v) => v
    case Initializer(produce) => produce()
  }

  /** Called with no options and no default (or an `undefined` one), the hook uses JSON and the
      empty string; any other default is kept as given. */
  lemma OmittedArguments(json: Codec)
    ensures ResolveCodec(NoOptions, json).serialize == json.serialize
    ensures ResolveCodec(NoOptions, json).deserialize == json.deserialize
    ensures DefaultValue(ResolveDefault(None)) == Str("")
    ensures DefaultValue(ResolveDefault(Some(Value(Undefined)))) == Str("")
    ensures forall d :: d != Value(Undefined) ==> ResolveDefault(Some(d)) == d
  {
  }

  /** A caller's option replaces the corresponding JSON function, independently of the other. */
  lemma CustomOptionsWin(options: Options, json: Codec)
    ensures options.serializer.Some? ==> ResolveCodec(options, json).serialize == options.serializer.value
    ensures options.deserializer.Some? ==> ResolveCodec(options, json).deserialize == options.deserializer.value
    ensures options.serializer.None? ==> ResolveCodec(options, json).serialize == json.serialize
    ensures options.deserializer.None? ==> ResolveCodec(options, json).deserialize == json.deserialize
  {
  }

  /** What the lazy initializer yields: the initial state, and how many times it
      called a function-valued default. */
  datatype Init = Init(state: JsValue, initializerCalls: nat)

  /** The lazy initializer of the hook: resolve the default first, then take the decoded
      stored entry if it is truthy and the default otherwise. A falsy decoded entry
      (`null` for a missing key, but also a stored `''`, `0` or `false`) yields the default. */
  function InitialState(store: Store, key: string, d: DefaultState, codec: Codec): (r: Init)
    ensures r.initializerCalls == (if d.Initializer? then 1 else 0)
    ensures Truthy(codec.deserialize(GetItem(store, key))) ==> r.state == codec.deserialize(GetItem(store, key))
    ensures !Truthy(codec.deserialize(GetItem(store, key))) ==> r.state == DefaultValue(d)
  {
    var defaultValue := DefaultValue(d);
    Init(Or(codec.deserialize(GetItem(store, key)), defaultValue), if d.Initializer? then 1 else 0)
  }

  /** One mounted hook: its key, its resolved codec and its current state. */
  datatype Cell = Cell(key: string, codec: Codec, state: JsValue)

  /** A mounted hook together with the store it writes to, and the number of times its
      initializer function has run since it was mounted. */
  datatype Mounted = Mounted(cell: Cell, store: Store, initializerCalls: nat)

  /** The store holds the serialized current state under the hook's key. */
  predicate InSync(store: Store, cell: Cell) {
    GetItem(store, cell.key) == Some(cell.codec.serialize(cell.state))
  }

  /** The effect that runs after a render with a new state: `setItem(key, serializer(state))`. */
  function Persist(store: Store, cell: Cell): (r: Store)
    ensures InSync(r, cell)
    ensures forall k :: k != cell.key ==> GetItem(r, k) == GetItem(store, k)
  {
    SetItem(store, cell.key, cell.codec.serialize(cell.state))
  }

  /** The first render: the lazy initializer computes the state, and the effect that follows
      the render writes it back under the key. */
  function Mount(store: Store, key: string, defaultState: Option<DefaultState>, options: Options, json: Codec): (m: Mounted)
    ensures m.cell.key == key
    ensures m.cell.codec == ResolveCodec(options, json)
    ensures m.cell.state == InitialState(store, key, ResolveDefault(defaultState), ResolveCodec(options, json)).state
    ensures m.initializerCalls == (if ResolveDefault(defaultState).Initializer? then 1 else 0)
    ensures InSync(m.store, m.cell)
    ensures forall k :: k != key ==> GetItem(m.store, k) == GetItem(store, k)
  {
    var codec := ResolveCodec(options, json);
    var init := InitialState(store, key, ResolveDefault(defaultState), codec);
    var cell := Cell(key, codec, init.state);
    Mounted(cell, Persist(store, cell), init.initializerCalls)
  }

  /** `setState(v)` followed by the write effect. The initializer is not run again. */
  function SetState(m: Mounted, v: JsValue): (r: Mounted)
    ensures r.cell.state == v
    ensures r.cell.key == m.cell.key && r.cell.codec == m.cell.codec
    ensures r.initializerCalls == m.initializerCalls
    ensures InSync(r.store, r.cell)
    ensures forall k :: k != m.cell.key ==> GetItem(r.store, k) == GetItem(m.store, k)
  {
    var cell := m.cell.(state := v);
    Mounted(cell, Persist(m.store, cell), m.initializerCalls)
  }

  /** `setState(f)`: the updater receives the current state. */
  function Update(m: Mounted, f: JsValue -> JsValue): (r: Mounted)
    ensures r.cell.state == f(m.cell.state)
    ensures r.cell.key == m.cell.key && r.cell.codec == m.cell.codec
    ensures r.initializerCalls == m.initializerCalls
    ensures InSync(r.store, r.cell)
    ensures forall k :: k != m.cell.key ==> GetItem(r.store, k) == GetItem(m.store, k)
  {
    SetState(m, f(m.cell.state))
  }

  /** The codec reads back what it wrote for `v`. */
  predicate RoundTrips(codec: Codec, v: JsValue) {
    codec.deserialize(Some(codec.serialize(v))) == v
  }

  /** After a write of `v` through a codec that reads `v` back, a fresh initialization of the
      same key yields `v` exactly when `v` is truthy, and the default otherwise. */
  lemma ReloadAfterWrite(store: Store, key: string, codec: Codec, v: JsValue, d: DefaultState)
    requires RoundTrips(codec, v)
    ensures Truthy(v) ==> InitialState(Persist(store, Cell(key, codec, v)), key, d, codec).state == v
    ensures !Truthy(v) ==> InitialState(Persist(store, Cell(key, codec, v)), key, d, codec).state == DefaultValue(d)
  {
  }

  /** A hook remounted over the store left by `setState(v)`, with the same options,
      starts from `v` whenever `v` is truthy; a falsy `v` is replaced by the new default. */
  lemma RemountAfterSetState(m: Mounted, v: JsValue, d: Option<DefaultState>, options: Options, json: Codec)
    requires m.cell.codec == ResolveCodec(options, json)
    requires RoundTrips(m.cell.codec, v)
    ensures var r := Mount(SetState(m, v).store, m.cell.key, d, options, json);
      r.cell.state == (if Truthy(v) then v else DefaultValue(ResolveDefault(d)))
  {
    ReloadAfterWrite(m.store, m.cell.key, m.cell.codec, v, ResolveDefault(d));
  }

  /** Setting the state it already holds leaves a synchronized store as it was, so the
      write that React skips for an unchanged state would change nothing. */
  lemma SetSameStateKeepsStore(m: Mounted)
    requires InSync(m.store, m.cell)
    ensures SetState(m, m.cell.state).store == m.store
  {
  }
}
