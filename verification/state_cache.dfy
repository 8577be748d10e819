/** `save_device_state` and `load_device_state`: a device's last reading kept
    as a JSON file in the storage directory, one file per address. The
    directory is a map from file name to content, passed in and returned. */
module StateCache {
  import opened Wrappers
  import opened PyText
  import opened Codec

  /** The dict that is saved: string keys, JSON values. */
  type State = map<string, Value>

  /** A file `json.load` reads back as the dict `json.dump` wrote, or one
      that a failed dump left truncated and unreadable. */
  datatype FileContent = Json(state: State) | Garbled

  /** The storage directory: file name to content. */
  type Store = map<string, FileContent>

  /** How `save_device_state`'s try block ends: the file is written; creating
      the directory or opening the file fails, so nothing is written; or
      `json.dump` fails after the file was opened for writing. */
  datatype SaveOutcome = Saved | OpenFailed | DumpFailed

  const PREFIX: string := "laifen_"
  const SUFFIX: string := ".json"

  /** The file name of an address: `laifen_` + the address with every `:`
      removed + `.json`. */
  function FileName(address: string): (name: string)
    ensures |name| == |PREFIX| + |Remove(address, ':')| + |SUFFIX|
    ensures name[..|PREFIX|] == PREFIX && name[|name| - |SUFFIX|..] == SUFFIX
  {
    PREFIX + Remove(address, ':') + SUFFIX
  }

  /** The name holds the stripped address between the fixed prefix and
      suffix, and so no `:` at all. */
  lemma FileNameParts(address: string)
    ensures |FileName(address)| == |PREFIX| + |Remove(address, ':')| + |SUFFIX|
    ensures FileName(address)[|PREFIX|..|FileName(address)| - |SUFFIX|] == Remove(address, ':')
    ensures ':' !in FileName(address)
  {
    var name, core := FileName(address), Remove(address, ':');
    assert name[|PREFIX|..|name| - |SUFFIX|] == core;
    forall i | 0 <= i < |name|
      ensures name[i] != ':'
    {
      if |PREFIX| <= i < |name| - |SUFFIX| {
        assert name[i] == core[i - |PREFIX|];
      }
    }
  }

  /** Two addresses share a file exactly when they agree once `:` is removed. */
  lemma SameFileIffSameStripped(a: string, b: string)
    ensures FileName(a) == FileName(b) <==> Remove(a, ':') == Remove(b, ':')
  {
    if FileName(a) == FileName(b) {
      FileNameParts(a);
      FileNameParts(b);
    }
  }

  /** So a colon anywhere in an address makes no difference: `AA:BB` and
      `AABB` share a file, and overwrite each other's state. */
  lemma ColonsCollide(a: string, b: string)
    ensures FileName(a + ":" + b) == FileName(a + b)
  {
    RemoveAppend(a + ":", b, ':');
    RemoveAppend(a, ":", ':');
    RemoveAppend(a, b, ':');
    assert Remove(":", ':') == [] by {
      assert ":"[1..] == [];
    }
    assert Remove(a, ':') + [] == Remove(a, ':');
  }

  /** `save_device_state`: never raises. A written file holds the state; a
      failed open leaves the directory as it was; a failed dump leaves the
      file truncated. */
  function Save(store: Store, address: string, state: State, outcome: SaveOutcome): (after: Store)
    ensures outcome == OpenFailed ==> after == store
    ensures outcome != OpenFailed ==> after.Keys == store.Keys + {FileName(address)}
    ensures forall name :: name in store && name != FileName(address) ==> after[name] == store[name]
  {
    match outcome
    case Saved => store[FileName(address) := Json(state)]
    case DumpFailed => store[FileName(address) := Garbled]
    case OpenFailed => store
  }

  /** `load_device_state`: the dict in the address's file; None when there
      is no such file or it cannot be read back. */
  function Load(store: Store, address: string): (r: Option<State>)
    ensures r.Some? <==> FileName(address) in store && store[FileName(address)].Json?
  {
    var name := FileName(address);
    if name in store then
      match store[name]
      case Json(state) => Some(state)
      case Garbled => None
    else None
  }

  /** Loading after a successful save for the same address gives back the
      saved dict. */
  lemma LoadAfterSave(store: Store, address: string, state: State)
    ensures Load(Save(store, address, state, Saved), address) == Some(state)
  {
  }

  /** After a failed dump the address loads as None. */
  lemma LoadAfterFailedDump(store: Store, address: string, state: State)
    ensures Load(Save(store, address, state, DumpFailed), address) == None
  {
  }

  /** A save changes what loads for exactly the addresses that share its
      stripped form: every other address loads as before, and every address
      that shares it loads what was saved. */
  lemma SaveIsolation(store: Store, a: string, b: string, state: State, outcome: SaveOutcome)
    ensures Remove(a, ':') != Remove(b, ':') ==> Load(Save(store, a, state, outcome), b) == Load(store, b)
    ensures Remove(a, ':') == Remove(b, ':') && outcome == Saved ==> Load(Save(store, a, state, outcome), b) == Some(state)
  {
    SameFileIffSameStripped(a, b);
  }
}
