/**
 * Long-term memory and chat history (ai_identity/memory.py). A `MemoryStore`
 * is a key-value store; a `ChatHistory` buffers the messages of one session
 * and saves each one in a store under its position, so that a later session
 * sharing the store can still recall it.
 */
module Memory {
  import opened Wrappers

  /** The value stored under `key`, or `default` (`dict.get`). */
  function Lookup<K, V>(store: map<K, V>, key: K, default: Option<V>): (r: Option<V>)
    ensures key in store ==> r == Some(store[key])
    ensures key !in store ==> r == default
  {
    if key in store then Some(store[key]) else default
  }

  /** Saving `value` under `k` makes `k` recall it and leaves every other key as it was. */
  lemma LookupAfterSave<K, V>(store: map<K, V>, k: K, value: V, key: K, default: Option<V>)
    ensures key == k ==> Lookup(store[k := value], key, default) == Some(value)
    ensures key != k ==> Lookup(store[k := value], key, default) == Lookup(store, key, default)
  {
  }

  class MemoryStore<K(==), V> {
    /** `_store` */
    var store: map<K, V>

    constructor ()
      ensures store == map[]
    {
      store := map[];
    }

    /** `save`: persist `value` under `key`, replacing any earlier value. */
    method Save(key: K, value: V)
      modifies this
      ensures store == old(store)[key := value]
      ensures Recall(key) == Some(value)
    {
      store := store[key := value];
    }

    /** `recall`: the stored value, or `default` when nothing is stored under `key`. */
    function Recall(key: K, default: Option<V> := None): (r: Option<V>)
      reads this
      ensures r == Lookup(store, key, default)
    {
      Lookup(store, key, default)
    }

    /** `clear`: forget everything. */
    method Clear()
      modifies this
      ensures store == map[]
      ensures forall k, d :: Recall(k, d) == d
    {
      store := map[];
    }
  }

  class ChatHistory {
    /** The store this history saves into; it may be shared with other histories. */
    const memory: MemoryStore<int, string>
    /** `_history`: the messages of this session, in order. */
    var buffer: seq<string>

    /** Uses the given store, or a fresh empty one when none is given. */
    constructor (memory: MemoryStore?<int, string>)
      ensures memory != null ==> this.memory == memory
      ensures memory == null ==> fresh(this.memory) && this.memory.store == map[]
      ensures buffer == []
    {
      if memory != null {
        this.memory := memory;
      } else {
        this.memory := new MemoryStore();
      }
      buffer := [];
    }

    /** `add_message`: append to the buffer and save under the message's position in it. */
    method AddMessage(message: string)
      modifies this, memory
      ensures buffer == old(buffer) + [message]
      ensures memory.store == old(memory.store)[|old(buffer)| := message]
      ensures Recall(|buffer| - 1) == Some(message)
      ensures forall i :: i != |buffer| - 1 ==> Recall(i) == old(Recall(i))
    {
      buffer := buffer + [message];
      memory.Save(|buffer| - 1, message);
    }

    /** `history`: a copy of this session's messages. */
    method History() returns (h: seq<string>)
      ensures h == buffer
    {
      h := buffer;
    }

    /** `recall`: the message saved under `index` by any history sharing the store. */
    function Recall(index: int): (r: Option<string>)
      reads this, memory
      ensures index in memory.store ==> r == Some(memory.store[index])
      ensures index !in memory.store ==> r == None
    {
      memory.Recall(index)
    }
  }

  /**
   * A second session on the same store recalls the first session's messages
   * by index while its own buffer is empty.
   */
  method ContextBreak() returns (first: Option<string>, second: Option<string>, history: seq<string>)
    ensures first == Some("hello") && second == Some("world")
    ensures history == []
  {
    var store := new MemoryStore<int, string>();
    var chat := new ChatHistory(store);
    chat.AddMessage("hello");
    chat.AddMessage("world");
    var newChat := new ChatHistory(store);
    first := newChat.Recall(0);
    second := newChat.Recall(1);
    history := newChat.History();
  }

  /**
   * Positions restart at 0 in every session, so a second session on a shared
   * store overwrites what the first saved under the same positions, while the
   * first session's own buffer is untouched.
   */
  method SharedStoreOverwrite() returns (recalled: Option<string>, oldHistory: seq<string>)
    ensures recalled == Some("again")
    ensures oldHistory == ["hello", "world"]
  {
    var store := new MemoryStore<int, string>();
    var chat := new ChatHistory(store);
    chat.AddMessage("hello");
    chat.AddMessage("world");
    var newChat := new ChatHistory(store);
    newChat.AddMessage("again");
    recalled := chat.Recall(0);
    oldHistory := chat.History();
  }
}
