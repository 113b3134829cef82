/** The preference store (bot/storage.py): one record per chat holding its
    display mode and its custom list of menu keys, kept in one JSON file
    that every operation reads whole and writes back whole. */
module Storage {
  import opened Common
  import Numerals
  import StringOrder
  import BrsFormatter

  const DEFAULT_MODE: string := "important"

  /** The compiled-in custom selection. */
  const DEFAULT_CUSTOM: seq<string> := [
    "coin_emami", "coin_1g", "usd", "usdt_irt", "xauusd",
    "btc", "eth", "trx", "usdt"]

  /** One chat's stored JSON object: its `"mode"` and `"custom"` entries when
      present, and any other entries, kept verbatim (as their JSON text). A
      record decoded from JSON is `WellFormedRecord`; no operation or lemma
      below relies on it, since `others` is only ever carried over unchanged. */
  datatype UserRecord = UserRecord(mode: Option<string>, custom: Option<seq<string>>, others: map<string, string>)

  /** `others` holds no `"mode"` or `"custom"` entry. */
  predicate WellFormedRecord(r: UserRecord) {
    "mode" !in r.others && "custom" !in r.others
  }

  /** `{}`: what `data.get(key, {})` gives for a chat without a record. */
  const EMPTY_RECORD: UserRecord := UserRecord(None, None, map[])

  /** What `get_user_prefs` returns. */
  datatype Prefs = Prefs(mode: string, custom: seq<string>)

  /** The store file: not there, there but not parseable JSON, or a parsed
      object from chat key to record. */
  datatype StoreFile = Missing | Unparseable | Stored(users: map<string, UserRecord>)

  /** `_load()`: the parsed object, or `{}` when the file is missing or
      does not parse. */
  function Load(f: StoreFile): map<string, UserRecord> {
    if f.Stored? then f.users else map[]
  }

  /** `str(chat_id)`: the key of a chat in the file. */
  function ChatKey(chat: int): string {
    Numerals.Decimal(chat)
  }

  /** Different chats have different keys. */
  lemma ChatKeyInjective(a: int, b: int)
    ensures a != b ==> ChatKey(a) != ChatKey(b)
  {
    Numerals.DecimalInjective(a, b);
  }

  /** `data.get(str(chat_id), {})`. */
  function RecordOf(users: map<string, UserRecord>, chat: int): UserRecord {
    if ChatKey(chat) in users then users[ChatKey(chat)] else EMPTY_RECORD
  }

  /** A record's fields with the compiled defaults filled in. */
  function PrefsOf(users: map<string, UserRecord>, chat: int): Prefs {
    var user := RecordOf(users, chat);
    Prefs(user.mode.GetOr(DEFAULT_MODE), user.custom.GetOr(DEFAULT_CUSTOM))
  }

  /** `get_user_prefs(chat_id)`. A chat without a record gets mode
      `"important"` and the default selection; a stored field wins over its
      default. As a function it cannot write the store. */
  function GetUserPrefs(f: StoreFile, chat: int): (p: Prefs)
    ensures ChatKey(chat) !in Load(f) ==> p == Prefs("important", DEFAULT_CUSTOM)
    ensures ChatKey(chat) in Load(f) && Load(f)[ChatKey(chat)].mode.Some? ==> p.mode == Load(f)[ChatKey(chat)].mode.value
    ensures ChatKey(chat) in Load(f) && Load(f)[ChatKey(chat)].custom.Some? ==> p.custom == Load(f)[ChatKey(chat)].custom.value
    ensures ChatKey(chat) in Load(f) && Load(f)[ChatKey(chat)].mode.None? ==> p.mode == DEFAULT_MODE
    ensures ChatKey(chat) in Load(f) && Load(f)[ChatKey(chat)].custom.None? ==> p.custom == DEFAULT_CUSTOM
  {
    PrefsOf(Load(f), chat)
  }

  /** A store file that is missing or does not parse acts as the empty
      store: every chat gets the defaults. */
  lemma UnreadableStoreGivesDefaults(f: StoreFile, chat: int)
    requires !f.Stored?
    ensures GetUserPrefs(f, chat) == Prefs("important", DEFAULT_CUSTOM)
  {
  }

  /** Every key of the default selection is a key of the symbol table. */
  lemma DefaultCustomKnown()
    ensures forall k :: k in DEFAULT_CUSTOM ==> k in BrsFormatter.BRS_KEYS
  {
  }

  /** The users object that `set_user_mode(chat, mode)` writes back. */
  function WithMode(users: map<string, UserRecord>, chat: int, mode: string): map<string, UserRecord> {
    var user := RecordOf(users, chat);
    users[ChatKey(chat) := user.(mode := Some(mode), custom := Some(user.custom.GetOr(DEFAULT_CUSTOM)))]
  }

  /** The set `toggle_custom(chat, key)` arrives at: the chat's current
      selection (stored or default) with `key` flipped. */
  function ToggledSelection(users: map<string, UserRecord>, chat: int, key: string): set<string> {
    var cur := StringOrder.Elements(PrefsOf(users, chat).custom);
    if key in cur then cur - {key} else cur + {key}
  }

  /** The users object that `toggle_custom(chat, key)` writes back. */
  function WithToggle(users: map<string, UserRecord>, chat: int, key: string): map<string, UserRecord> {
    var user := RecordOf(users, chat);
    users[ChatKey(chat) := user.(custom := Some(StringOrder.Sorted(ToggledSelection(users, chat, key))), mode := Some("custom"))]
  }

  /** Both updates keep every record of the file well formed. */
  lemma UpdatesKeepRecordsWellFormed(users: map<string, UserRecord>, chat: int, mode: string, key: string)
    requires forall k :: k in users ==> WellFormedRecord(users[k])
    ensures forall k :: k in WithMode(users, chat, mode) ==> WellFormedRecord(WithMode(users, chat, mode)[k])
    ensures forall k :: k in WithToggle(users, chat, key) ==> WellFormedRecord(WithToggle(users, chat, key)[k])
  {
  }

  /** The store as the running bot sees it: the file, read through `_load`. */
  class PreferenceStore {
    var file: StoreFile

    constructor (f: StoreFile)
      ensures file == f
    {
      file := f;
    }

    function Users(): map<string, UserRecord>
      reads this
    {
      Load(file)
    }

    /** `set_user_mode(chat_id, mode)`: the whole store is loaded, the chat's
        record gets the mode (and the default selection when it has none),
        and the whole store is written back. Mode is not validated. */
    method SetUserMode(chat: int, mode: string)
      modifies this
      ensures file == Stored(WithMode(old(Users()), chat, mode))
    {
      var data := Load(file);
      var key := ChatKey(chat);
      var user := if key in data then data[key] else EMPTY_RECORD;
      user := user.(mode := Some(mode));
      if user.custom.None? {
        user := user.(custom := Some(DEFAULT_CUSTOM));
      }
      data := data[key := user];
      file := Stored(data);
    }

    /** `toggle_custom(chat_id, symbol_key)`: the key's membership in the
        chat's selection flips, the selection is stored sorted, the mode
        becomes `"custom"`, and the sorted selection is returned. The key is
        not validated. */
    method ToggleCustom(chat: int, symbolKey: string) returns (custom: seq<string>)
      modifies this
      ensures StringOrder.StrictlySorted(custom)
      ensures forall k :: k in custom <==> k in ToggledSelection(old(Users()), chat, symbolKey)
      ensures file == Stored(WithToggle(old(Users()), chat, symbolKey))
    {
      var data := Load(file);
      var key := ChatKey(chat);
      var user := if key in data then data[key] else EMPTY_RECORD;
      var cur := StringOrder.Elements(user.custom.GetOr(DEFAULT_CUSTOM));
      if symbolKey in cur {
        cur := cur - {symbolKey};
      } else {
        cur := cur + {symbolKey};
      }
      custom := StringOrder.Sorted(cur);
      user := user.(custom := Some(custom));
      user := user.(mode := Some("custom"));
      data := data[key := user];
      file := Stored(data);
    }
  }

  // ---- What the two updates do ----

  /** After `set_user_mode(chat, mode)` the chat reads back `mode` and its
      previous selection (the stored one, or the default when it had none),
      and now has both fields stored; its other entries and every other
      entry of the file (whatever its key) is unchanged. */
  lemma SetUserModeEffect(users: map<string, UserRecord>, chat: int, mode: string, other: int)
    requires other != chat
    ensures PrefsOf(WithMode(users, chat, mode), chat) == Prefs(mode, PrefsOf(users, chat).custom)
    ensures RecordOf(WithMode(users, chat, mode), chat).mode.Some?
    ensures RecordOf(WithMode(users, chat, mode), chat).custom.Some?
    ensures RecordOf(WithMode(users, chat, mode), chat).others == RecordOf(users, chat).others
    ensures RecordOf(WithMode(users, chat, mode), other) == RecordOf(users, other)
    ensures WithMode(users, chat, mode).Keys == users.Keys + {ChatKey(chat)}
    ensures forall k :: k in users && k != ChatKey(chat) ==> WithMode(users, chat, mode)[k] == users[k]
  {
    ChatKeyInjective(chat, other);
  }

  /** After `toggle_custom(chat, key)`, `key` is selected exactly when it was
      not before, and every other key keeps its membership. */
  lemma ToggleFlipsMembership(users: map<string, UserRecord>, chat: int, key: string, k: string)
    ensures k in PrefsOf(WithToggle(users, chat, key), chat).custom <==>
      if k == key then key !in PrefsOf(users, chat).custom else k in PrefsOf(users, chat).custom
  {
  }

  /** After `toggle_custom`, the chat is in mode `"custom"` and its stored
      selection is sorted and free of duplicates. */
  lemma ToggleForcesCustomMode(users: map<string, UserRecord>, chat: int, key: string)
    ensures PrefsOf(WithToggle(users, chat, key), chat).mode == "custom"
    ensures StringOrder.StrictlySorted(PrefsOf(WithToggle(users, chat, key), chat).custom)
    ensures var s := PrefsOf(WithToggle(users, chat, key), chat).custom;
      forall i, j :: 0 <= i < |s| && 0 <= j < |s| && i != j ==> s[i] != s[j]
  {
    StringOrder.StrictlySortedDistinct(PrefsOf(WithToggle(users, chat, key), chat).custom);
  }

  /** `toggle_custom` changes only the chat's own record, and in it only the
      mode and the selection; every other entry of the file, whatever its
      key, is unchanged. */
  lemma ToggleFrame(users: map<string, UserRecord>, chat: int, key: string, other: int)
    requires other != chat
    ensures RecordOf(WithToggle(users, chat, key), other) == RecordOf(users, other)
    ensures RecordOf(WithToggle(users, chat, key), chat).others == RecordOf(users, chat).others
    ensures WithToggle(users, chat, key).Keys == users.Keys + {ChatKey(chat)}
    ensures forall k :: k in users && k != ChatKey(chat) ==> WithToggle(users, chat, key)[k] == users[k]
  {
    ChatKeyInjective(chat, other);
  }

  /** Toggling the same key twice gives back the selection the chat had (as
      a set), now stored sorted, and leaves the chat in mode `"custom"`. */
  lemma ToggleTwiceRestores(users: map<string, UserRecord>, chat: int, key: string)
    ensures var twice := WithToggle(WithToggle(users, chat, key), chat, key);
      && StringOrder.Elements(PrefsOf(twice, chat).custom) == StringOrder.Elements(PrefsOf(users, chat).custom)
      && PrefsOf(twice, chat).custom == StringOrder.Sorted(StringOrder.Elements(PrefsOf(users, chat).custom))
      && PrefsOf(twice, chat).mode == "custom"
  {
    var once := WithToggle(users, chat, key);
    var s0 := StringOrder.Elements(PrefsOf(users, chat).custom);
    ToggledRecord(users, chat, key);
    ToggledRecord(once, chat, key);
    assert ToggledSelection(once, chat, key) == s0;
  }

  /** What the chat reads back right after one toggle. */
  lemma ToggledRecord(users: map<string, UserRecord>, chat: int, key: string)
    ensures PrefsOf(WithToggle(users, chat, key), chat)
      == Prefs("custom", StringOrder.Sorted(ToggledSelection(users, chat, key)))
    ensures StringOrder.Elements(PrefsOf(WithToggle(users, chat, key), chat).custom) == ToggledSelection(users, chat, key)
  {
  }

  /** Toggling a key into the selection of a chat that already has a sorted
      selection stored, and then out again, gives back exactly the stored
      list. */
  lemma ToggleTwiceRestoresSortedList(users: map<string, UserRecord>, chat: int, key: string)
    requires StringOrder.StrictlySorted(PrefsOf(users, chat).custom)
    ensures PrefsOf(WithToggle(WithToggle(users, chat, key), chat, key), chat).custom == PrefsOf(users, chat).custom
  {
    ToggleTwiceRestores(users, chat, key);
    StringOrder.SortedOfSorted(PrefsOf(users, chat).custom);
  }
}
