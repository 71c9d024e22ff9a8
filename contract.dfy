/**
 * `SecuritizedAssetContract`: create, read, update and delete of securitized
 * assets over the ledger stub. Every operation first checks whether the asset
 * exists, then throws or issues at most one write.
 */
module SecuritizedAssetContract {
  import opened Wrappers
  import opened Envelope
  import opened Ledger

  /** What an operation throws. */
  datatype Error =
    | AlreadyExists(id: Key)
    | DoesNotExist(id: Key)
      /** `JSON.parse` rejected the bytes of a history entry. */
    | SyntaxError

  /**
   * The message of an error the contract throws itself: a fixed prefix, the
   * asset's identifier, and a suffix that tells the two errors apart.
   */
  function Message(e: Error): (r: string)
    requires !e.SyntaxError?
    ensures |r| == 22 + |e.id| + 15
    ensures r[..22] == "The securitized asset " && r[22..22 + |e.id|] == e.id
    ensures e.AlreadyExists? <==> r[22 + |e.id|..] == " already exists"
    ensures e.DoesNotExist? <==> r[22 + |e.id|..] == " does not exist"
  {
    match e
    case AlreadyExists(id) => "The securitized asset " + id + " already exists"
    case DoesNotExist(id) => "The securitized asset " + id + " does not exist"
  }

  /** `!!buffer && buffer.length > 0` on what `getState` answered. */
  predicate HasContent(buffer: Option<Bytes>)
  {
    buffer.Some? && |buffer.value| > 0
  }

  /** Whether the asset `id` exists in the world state. */
  predicate AssetExists(state: map<Key, Bytes>, id: Key)
  {
    HasContent(StateOf(state, id))
  }

  method SecuritizedAssetExists(stub: Stub, id: Key) returns (found: bool)
    ensures found <==> id in stub.state && stub.state[id] != []
  {
    var buffer := stub.GetState(id);
    found := HasContent(buffer);
  }

  method CreateSecuritizedAsset(stub: Stub, id: Key, value: string) returns (r: Outcome<Error>)
    modifies stub
    ensures old(AssetExists(stub.state, id)) ==>
      r == Fail(AlreadyExists(id)) && stub.state == old(stub.state) && stub.writes == old(stub.writes)
    ensures !old(AssetExists(stub.state, id)) ==>
      r == Pass &&
      stub.state == old(stub.state)[id := Encode(Asset(value))] &&
      stub.writes == old(stub.writes) + [Put(id, Encode(Asset(value)))]
    ensures r.Pass? ==> AssetExists(stub.state, id)
    ensures forall k | k != id :: StateOf(stub.state, k) == old(StateOf(stub.state, k))
    ensures stub.history == old(stub.history)
  {
    var found := SecuritizedAssetExists(stub, id);
    if found {
      return Fail(AlreadyExists(id));
    }
    var asset := Asset(value);
    var buffer := Encode(asset);
    stub.PutState(id, buffer);
    r := Pass;
  }

  method UpdateSecuritizedAsset(stub: Stub, id: Key, newValue: string) returns (r: Outcome<Error>)
    modifies stub
    ensures !old(AssetExists(stub.state, id)) ==>
      r == Fail(DoesNotExist(id)) && stub.state == old(stub.state) && stub.writes == old(stub.writes)
    ensures old(AssetExists(stub.state, id)) ==>
      r == Pass &&
      stub.state == old(stub.state)[id := Encode(Asset(newValue))] &&
      stub.writes == old(stub.writes) + [Put(id, Encode(Asset(newValue)))]
    ensures r.Pass? ==> AssetExists(stub.state, id)
    ensures forall k | k != id :: StateOf(stub.state, k) == old(StateOf(stub.state, k))
    ensures stub.history == old(stub.history)
  {
    var found := SecuritizedAssetExists(stub, id);
    if !found {
      return Fail(DoesNotExist(id));
    }
    var asset := Asset(newValue);
    var buffer := Encode(asset);
    stub.PutState(id, buffer);
    r := Pass;
  }

  method DeleteSecuritizedAsset(stub: Stub, id: Key) returns (r: Outcome<Error>)
    modifies stub
    ensures !old(AssetExists(stub.state, id)) ==>
      r == Fail(DoesNotExist(id)) && stub.state == old(stub.state) && stub.writes == old(stub.writes)
    ensures old(AssetExists(stub.state, id)) ==>
      r == Pass &&
      stub.state == old(stub.state) - {id} &&
      stub.writes == old(stub.writes) + [Delete(id)]
    ensures r.Pass? ==> !AssetExists(stub.state, id)
    ensures forall k | k != id :: StateOf(stub.state, k) == old(StateOf(stub.state, k))
    ensures stub.history == old(stub.history)
  {
    var found := SecuritizedAssetExists(stub, id);
    if !found {
      return Fail(DoesNotExist(id));
    }
    stub.DeleteState(id);
    r := Pass;
  }

  /**
   * What the read loop collects from the history entries `h`, in cursor
   * order: the parsed envelope of every entry that has a value, or the
   * error of the first entry whose bytes do not parse.
   */
  function DecodeHistory(h: seq<Option<Bytes>>): Result<seq<Asset>, Error>
  {
    if h == [] then Success([])
    else
      match DecodeHistory(h[..|h| - 1])
      case Failure(e) => Failure(e)
      case Success(found) =>
        match h[|h| - 1]
        case None => Success(found)
        case Some(bytes) =>
          match Decode(bytes)
          case None => Failure(SyntaxError)
          case Some(asset) => Success(found + [asset])
  }

  /** What `readSecuritizedAsset` returns or throws. */
  function ReadResult(state: map<Key, Bytes>, history: map<Key, seq<Option<Bytes>>>, id: Key)
    : Result<seq<Asset>, Error>
  {
    if !AssetExists(state, id) then Failure(DoesNotExist(id))
    else DecodeHistory(HistoryOf(history, id))
  }

  method ReadSecuritizedAsset(stub: Stub, id: Key) returns (r: Result<seq<Asset>, Error>)
    ensures r == ReadResult(stub.state, stub.history, id)
  {
    var found := SecuritizedAssetExists(stub, id);
    if !found {
      return Failure(DoesNotExist(id));
    }
    var it := stub.GetHistoryForKey(id);
    ghost var entries := it.entries;
    var result: seq<Asset> := [];
    var res := it.Next();
    ghost var consumed: nat := 0;
    while !res.done
      invariant fresh(it) && it.Valid() && it.entries == entries
      invariant consumed == if res.done then it.position else it.position - 1
      invariant consumed <= |entries| && (res.done ==> consumed == |entries|)
      invariant !res.done ==> consumed < |entries| && res.value == entries[consumed]
      invariant DecodeHistory(entries[..consumed]) == Success(result)
      decreases |entries| - consumed
    {
      assert entries[..consumed + 1][..consumed] == entries[..consumed];
      if res.value.Some? {
        var obj := Decode(res.value.value);
        if obj.None? {
          DecodeHistoryFailurePersists(entries, consumed + 1);
          return Failure(SyntaxError);
        }
        result := result + [obj.value];
      }
      consumed := consumed + 1;
      res := it.Next();
    }
    it.Close();
    assert entries[..consumed] == entries;
    r := Success(result);
  }

  /** Once a prefix of the history fails to parse, the whole read fails the same way. */
  lemma {:induction false} DecodeHistoryFailurePersists(h: seq<Option<Bytes>>, n: nat)
    requires n <= |h| && DecodeHistory(h[..n]).Failure?
    ensures DecodeHistory(h) == DecodeHistory(h[..n])
    decreases |h| - n
  {
    if n < |h| {
      var shorter := h[..|h| - 1];
      assert shorter[..n] == h[..n];
      DecodeHistoryFailurePersists(shorter, n);
    } else {
      assert h[..n] == h;
    }
  }

  /** Every entry of `h` that has a value holds bytes that parse. */
  predicate AllParse(h: seq<Option<Bytes>>)
  {
    forall i | 0 <= i < |h| && h[i].Some? :: Decode(h[i].value).Some?
  }

  /** The read succeeds exactly when every entry with a value parses. */
  lemma {:induction false} DecodeHistorySucceedsIff(h: seq<Option<Bytes>>)
    ensures DecodeHistory(h).Success? <==> AllParse(h)
  {
    if h != [] {
      var init := h[..|h| - 1];
      DecodeHistorySucceedsIff(init);
      assert forall i | 0 <= i < |init| :: init[i] == h[i];
    }
  }

  /** The read returns at most one envelope per history entry. */
  lemma {:induction false} DecodeHistoryLength(h: seq<Option<Bytes>>)
    ensures DecodeHistory(h).Success? ==> |DecodeHistory(h).value| <= |h|
  {
    if h != [] {
      DecodeHistoryLength(h[..|h| - 1]);
    }
  }

  /** The envelopes of the entries of `xs` that have a value, in order. */
  function Written(xs: seq<Option<Asset>>): seq<Asset>
  {
    if xs == [] then []
    else Written(xs[..|xs| - 1]) + (if xs[|xs| - 1].Some? then [xs[|xs| - 1].value] else [])
  }

  /** A history whose entries were stored by this contract: each value is an encoded envelope. */
  function EncodeHistory(xs: seq<Option<Asset>>): (h: seq<Option<Bytes>>)
    ensures |h| == |xs|
  {
    seq(|xs|, i requires 0 <= i < |xs| => if xs[i].Some? then Some(Encode(xs[i].value)) else None)
  }

  /**
   * Reading a history the contract wrote gives back every envelope written,
   * oldest first, skipping the entries with no value.
   */
  lemma {:induction false} DecodeEncodedHistory(xs: seq<Option<Asset>>)
    ensures DecodeHistory(EncodeHistory(xs)) == Success(Written(xs))
  {
    if xs != [] {
      var n := |xs|;
      var h := EncodeHistory(xs);
      assert h[..n - 1] == EncodeHistory(xs[..n - 1]);
      DecodeEncodedHistory(xs[..n - 1]);
      if xs[n - 1].Some? {
        assert h[n - 1] == Some(Encode(xs[n - 1].value));
        RoundTrip(xs[n - 1].value);
      } else {
        assert h[n - 1] == None;
        assert Written(xs) == Written(xs[..n - 1]) + [] == Written(xs[..n - 1]);
        assert DecodeHistory(h) == DecodeHistory(h[..n - 1]);
      }
    }
  }

  /** An asset that does not exist cannot be read, whatever its history. */
  lemma ReadAbsent(state: map<Key, Bytes>, history: map<Key, seq<Option<Bytes>>>, id: Key)
    requires id !in state || state[id] == []
    ensures ReadResult(state, history, id) == Failure(DoesNotExist(id))
  {
  }

  /** An entry with a value that does not parse, such as empty bytes, makes the read throw. */
  lemma ReadUnparsableEntry(h: seq<Option<Bytes>>, i: nat)
    requires i < |h| && h[i].Some? && Decode(h[i].value).None?
    ensures DecodeHistory(h) == Failure(SyntaxError)
  {
    DecodeHistorySucceedsIff(h);
    DecodeHistoryErrors(h);
  }

  /** The only error the history walk throws is a syntax error. */
  lemma {:induction false} DecodeHistoryErrors(h: seq<Option<Bytes>>)
    ensures DecodeHistory(h).Failure? ==> DecodeHistory(h).error == SyntaxError
  {
    if h != [] {
      DecodeHistoryErrors(h[..|h| - 1]);
    }
  }

  /** The world state of the contract's test: assets 1001 and 1002 hold their test values. */
  function TestState(): map<Key, Bytes>
  {
    map["1001" := Encode(Asset(TestValue("1001"))), "1002" := Encode(Asset(TestValue("1002")))]
  }

  /** In the test's state 1001 exists and 1003 does not. */
  lemma TestStateExistence()
    ensures AssetExists(TestState(), "1001") && !AssetExists(TestState(), "1003")
  {
  }

  /**
   * Reading an asset whose history holds only the entry that created it
   * gives an array holding that one envelope, not the bare envelope.
   */
  lemma ReadAfterCreation(state: map<Key, Bytes>, history: map<Key, seq<Option<Bytes>>>, id: Key, v: string)
    requires AssetExists(state, id) && HistoryOf(history, id) == [Some(Encode(Asset(v)))]
    ensures ReadResult(state, history, id) == Success([Asset(v)])
  {
    var xs := [Some(Asset(v))];
    DecodeEncodedHistory(xs);
    assert EncodeHistory(xs) == HistoryOf(history, id);
    assert xs[..0] == [];
    assert Written(xs) == Written([]) + [Asset(v)] == [Asset(v)];
  }
}
