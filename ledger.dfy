/**
 * The part of the transaction context's `stub` the contract uses: the world
 * state, the committed history of each key and a log of the writes the
 * transaction issues. The peer behind the stub is not modelled.
 */
module Ledger {
  import opened Wrappers

  type Key = string

  /** Stored bytes, as the characters of their text (UTF-8 is not modelled). */
  type Bytes = string

  /** One write the transaction hands to the stub. */
  datatype Write = Put(key: Key, value: Bytes) | Delete(key: Key)

  /** What `getState` answers for `key`: the stored bytes, or nothing. */
  function StateOf(state: map<Key, Bytes>, key: Key): (r: Option<Bytes>)
    ensures r.Some? <==> key in state
  {
    if key in state then Some(state[key]) else None
  }

  /**
   * The entries `getHistoryForKey` walks for `key`, oldest first. An entry
   * is the bytes it carries, or `None` when the cursor yields a falsy value.
   * A deletion is an entry with empty bytes, `Some([])`, not `None`.
   */
  function HistoryOf(history: map<Key, seq<Option<Bytes>>>, key: Key): seq<Option<Bytes>>
  {
    if key in history then history[key] else []
  }

  /** `{ value, done }`, what the history iterator's `next()` resolves to. */
  datatype IteratorResult = IteratorResult(value: Option<Bytes>, done: bool)

  /** A cursor over the history of one key. */
  class HistoryIterator {
    const entries: seq<Option<Bytes>>
    var position: nat
    var closed: bool

    ghost predicate Valid()
      reads this
    {
      position <= |entries|
    }

    constructor (entries: seq<Option<Bytes>>)
      ensures Valid() && this.entries == entries && position == 0 && !closed
    {
      this.entries := entries;
      position := 0;
      closed := false;
    }

    /**
     * Yields the next entry, or `done` once every entry has been yielded.
     * As in the ECMAScript iterator protocol, `done` comes only after the
     * last entry, never together with it.
     */
    method Next() returns (res: IteratorResult)
      requires Valid()
      modifies this`position
      ensures Valid()
      ensures old(position) < |entries| ==>
        res == IteratorResult(entries[old(position)], false) && position == old(position) + 1
      ensures old(position) == |entries| ==>
        res == IteratorResult(None, true) && position == old(position)
    {
      if position < |entries| {
        res := IteratorResult(entries[position], false);
        position := position + 1;
      } else {
        res := IteratorResult(None, true);
      }
    }

    method Close()
      modifies this`closed
      ensures closed
    {
      closed := true;
    }
  }

  class Stub {
    /** The world state; a key that was never written is absent. */
    var state: map<Key, Bytes>
    /** The committed history of every key, as the peer supplies it. */
    var history: map<Key, seq<Option<Bytes>>>
    /** The writes issued through this stub, in order. */
    var writes: seq<Write>

    constructor (state: map<Key, Bytes>, history: map<Key, seq<Option<Bytes>>>)
      ensures this.state == state && this.history == history && writes == []
    {
      this.state := state;
      this.history := history;
      writes := [];
    }

    method GetState(key: Key) returns (buffer: Option<Bytes>)
      ensures buffer.Some? <==> key in state
      ensures buffer.Some? ==> buffer.value == state[key]
    {
      buffer := StateOf(state, key);
    }

    method PutState(key: Key, value: Bytes)
      modifies this`state, this`writes
      ensures state == old(state)[key := value]
      ensures writes == old(writes) + [Put(key, value)]
    {
      state := state[key := value];
      writes := writes + [Put(key, value)];
    }

    method DeleteState(key: Key)
      modifies this`state, this`writes
      ensures state == old(state) - {key}
      ensures writes == old(writes) + [Delete(key)]
    {
      state := state - {key};
      writes := writes + [Delete(key)];
    }

    /**
     * A fresh cursor over the committed history of `key`. Writes of the
     * running transaction are not part of it.
     */
    method GetHistoryForKey(key: Key) returns (it: HistoryIterator)
      ensures fresh(it) && it.Valid()
      ensures it.entries == HistoryOf(history, key) && it.position == 0 && !it.closed
    {
      it := new HistoryIterator(HistoryOf(history, key));
    }
  }
}
