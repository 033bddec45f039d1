/** `HttpRequest`: views into a buffer, and the operations that move them to storage the request owns. */
module HttpRequests {
  import opened Bytes
  import opened HttpSyntax

  /** A `std::string_view`: null, a range of a buffer, or a pointer to bytes outside every buffer of this
      model (the literal "", or the result of shifting a view that was not in the old buffer). */
  datatype View = Null | At(buf: array<char>, off: nat, len: nat) | Elsewhere(len: nat)
  {
    function Text(): string
      reads if At? then {buf} else {}
    {
      if At? && off + len <= buf.Length then buf[off..off + len] else ""
    }

    /** The view denotes bytes among the first `limit` of `b`, or no bytes at all. */
    ghost predicate Inside(b: array<char>, limit: nat)
    {
      Null? || len == 0 || (At? && buf == b && off + len <= limit)
    }

    /** The text of a view inside a buffer whose contents are `memory`. */
    function TextIn(memory: string): string
    {
      if At? && off + len <= |memory| then memory[off..off + len] else ""
    }
  }

  /** An entry of a `std::unordered_map<string_view, string_view>`; tables are keyed by the text the key view
      had when the entry was inserted. */
  datatype Entry = Entry(key: View, value: View)

  type Table = map<string, Entry>

  /** `table[key] = value`: a present entry keeps its key view. */
  function Assign(table: Table, key: View, value: View): Table
    reads if key.At? then {key.buf} else {}
  {
    var k := key.Text();
    table[k := Entry(if k in table then table[k].key else key, value)]
  }

  /** Both views of the entry filed under `k` are inside the buffer, and the key view spells `k`. */
  ghost predicate EntryInside(e: Entry, k: string, b: array<char>, limit: nat, memory: string)
  {
    e.key.Inside(b, limit) && e.value.Inside(b, limit) && e.key.TextIn(memory) == k
  }

  ghost predicate TableInside(table: Table, b: array<char>, limit: nat, memory: string)
  {
    forall k | k in table :: EntryInside(table[k], k, b, limit, memory)
  }

  function Contents(table: Table, memory: string): map<string, string>
  {
    map k | k in table :: table[k].value.TextIn(memory)
  }

  /** `shift_view`. */
  function ShiftView(v: View, oldBase: array<char>, newBase: array<char>): View
  {
    match v
    case Null => Null
    case At(buf, off, len) => if buf == oldBase then At(newBase, off, len) else Elsewhere(len)
    case Elsewhere(len) => Elsewhere(len)
  }

  /** Shifting a view to a buffer that starts with the same bytes does not change what it denotes. */
  lemma ShiftKeepsText(v: View, oldBase: array<char>, newBase: array<char>, limit: nat,
                       oldMemory: string, newMemory: string)
    requires v.Inside(oldBase, limit) && limit <= |oldMemory| && limit <= |newMemory|
    requires oldMemory[..limit] == newMemory[..limit]
    ensures ShiftView(v, oldBase, newBase).Inside(newBase, limit)
    ensures ShiftView(v, oldBase, newBase).TextIn(newMemory) == v.TextIn(oldMemory)
  {
    SameText(v, oldBase, limit, oldMemory, newMemory);
  }

  /** What a view inside the first `limit` bytes denotes depends on these bytes only. */
  lemma SameText(v: View, b: array<char>, limit: nat, memory: string, other: string)
    requires v.Inside(b, limit) && limit <= |memory| && limit <= |other|
    requires memory[..limit] == other[..limit]
    ensures v.TextIn(memory) == v.TextIn(other)
  {
    if v.At? && v.len > 0 {
      assert memory[v.off..v.off + v.len] == memory[..limit][v.off..v.off + v.len];
      assert other[v.off..v.off + v.len] == other[..limit][v.off..v.off + v.len];
    }
  }

  lemma SameContents(table: Table, b: array<char>, limit: nat, memory: string, other: string)
    requires TableInside(table, b, limit, memory) && limit <= |memory| && limit <= |other|
    requires memory[..limit] == other[..limit]
    ensures TableInside(table, b, limit, other)
    ensures Contents(table, other) == Contents(table, memory)
  {
    forall k | k in table
      ensures EntryInside(table[k], k, b, limit, other)
      ensures table[k].value.TextIn(other) == table[k].value.TextIn(memory)
    {
      assert EntryInside(table[k], k, b, limit, memory);
      SameText(table[k].key, b, limit, memory, other);
      SameText(table[k].value, b, limit, memory, other);
    }
  }

  lemma ShiftEntry(e: Entry, k: string, oldBase: array<char>, newBase: array<char>, limit: nat,
                   oldMemory: string, newMemory: string)
    requires EntryInside(e, k, oldBase, limit, oldMemory)
    requires limit <= |oldMemory| && limit <= newBase.Length && newMemory == newBase[..]
    requires oldMemory[..limit] == newMemory[..limit]
    ensures var shifted := Entry(ShiftView(e.key, oldBase, newBase), ShiftView(e.value, oldBase, newBase));
            && EntryInside(shifted, k, newBase, limit, newMemory)
            && shifted.key.Text() == k
            && shifted.value.TextIn(newMemory) == e.value.TextIn(oldMemory)
  {
    ShiftKeepsText(e.key, oldBase, newBase, limit, oldMemory, newMemory);
    ShiftKeepsText(e.value, oldBase, newBase, limit, oldMemory, newMemory);
  }

  class HttpRequest {
    var verb: Method
    var path: View
    var version: View
    var headers: Table
    var queryParams: Table
    var body: View
    var ownedStorage: array?<char>

    constructor ()
      ensures Blank()
    {
      verb, path, version, body := UNKNOWN, Null, Null, Null;
      headers, queryParams := map[], map[];
      ownedStorage := null;
    }

    ghost predicate Blank()
      reads this
    {
      && path == version == body == Null
      && headers == queryParams == map[]
      && ownedStorage == null
    }

    /** Every view denotes bytes among the first `limit` of `b`, whose contents are `memory`, and every table
        key still spells the key it was filed under. */
    ghost predicate Inside(b: array<char>, limit: nat, memory: string)
      reads this
    {
      && path.Inside(b, limit) && version.Inside(b, limit) && body.Inside(b, limit)
      && TableInside(headers, b, limit, memory) && TableInside(queryParams, b, limit, memory)
    }

    function HeadIn(memory: string): Head
      reads this
    {
      Head(verb, path.TextIn(memory), Contents(queryParams, memory), version.TextIn(memory))
    }

    /** The request the fields denote. */
    function ValueIn(memory: string): Request
      reads this
    {
      Request(HeadIn(memory), Contents(headers, memory), body.TextIn(memory))
    }

    /** The request owns its bytes and denotes `value`. */
    ghost predicate Owns(value: Request)
      reads this, ownedStorage
    {
      && ownedStorage != null
      && Inside(ownedStorage, ownedStorage.Length, ownedStorage[..])
      && ValueIn(ownedStorage[..]) == value
    }

    lemma SameValue(b: array<char>, limit: nat, memory: string, other: string)
      requires Inside(b, limit, memory) && limit <= |memory| && limit <= |other|
      requires memory[..limit] == other[..limit]
      ensures Inside(b, limit, other) && ValueIn(other) == ValueIn(memory)
    {
      SameText(path, b, limit, memory, other);
      SameText(version, b, limit, memory, other);
      SameText(body, b, limit, memory, other);
      SameContents(headers, b, limit, memory, other);
      SameContents(queryParams, b, limit, memory, other);
    }

    /** With no bytes to denote, the views denote the same nothing in any buffer. */
    lemma NoBytes(a: array<char>, b: array<char>)
      requires Inside(a, 0, "")
      ensures Inside(b, 0, "")
    {
      forall k | k in headers
        ensures EntryInside(headers[k], k, b, 0, "")
      {
        assert EntryInside(headers[k], k, a, 0, "");
      }
      forall k | k in queryParams
        ensures EntryInside(queryParams[k], k, b, 0, "")
      {
        assert EntryInside(queryParams[k], k, a, 0, "");
      }
    }

    /** `shift_map`: rebuild a table with every key and value repointed. */
    static method ShiftMap(table: Table, oldBase: array<char>, newBase: array<char>, ghost limit: nat,
                           ghost oldMemory: string)
      returns (rebuilt: Table)
      requires limit <= newBase.Length && limit <= |oldMemory|
      requires newBase[..limit] == oldMemory[..limit]
      requires TableInside(table, oldBase, limit, oldMemory)
      ensures TableInside(rebuilt, newBase, limit, newBase[..])
      ensures Contents(rebuilt, newBase[..]) == Contents(table, oldMemory)
    {
      hide EntryInside, ShiftView;
      rebuilt := map[];
      var keys := table.Keys;
      assert newBase[..][..limit] == newBase[..limit];
      while keys != {}
        invariant keys <= table.Keys
        invariant rebuilt.Keys == table.Keys - keys
        invariant TableInside(rebuilt, newBase, limit, newBase[..])
        invariant forall k | k in rebuilt ::
                    rebuilt[k].value.TextIn(newBase[..]) == table[k].value.TextIn(oldMemory)
        decreases |keys|
      {
        var k :| k in keys;
        keys := keys - {k};
        var e := Entry(ShiftView(table[k].key, oldBase, newBase), ShiftView(table[k].value, oldBase, newBase));
        ShiftEntry(table[k], k, oldBase, newBase, limit, oldMemory, newBase[..]);
        if e.key.Text() !in rebuilt {
          rebuilt := rebuilt[e.key.Text() := e];
        }
      }
    }

    /** `rebase_views`. */
    method RebaseViews(oldBase: array<char>, newBase: array<char>, ghost limit: nat, ghost oldMemory: string)
      requires limit <= newBase.Length && limit <= |oldMemory|
      requires newBase[..limit] == oldMemory[..limit]
      requires Inside(oldBase, limit, oldMemory)
      modifies `path, `version, `body, `headers, `queryParams
      ensures Inside(newBase, limit, newBase[..])
      ensures ValueIn(newBase[..]) == old(ValueIn(oldMemory))
    {
      assert newBase[..][..limit] == newBase[..limit];
      if oldBase == newBase {
        SameValue(oldBase, limit, oldMemory, newBase[..]);
        return;
      }
      ShiftKeepsText(path, oldBase, newBase, limit, oldMemory, newBase[..]);
      ShiftKeepsText(version, oldBase, newBase, limit, oldMemory, newBase[..]);
      ShiftKeepsText(body, oldBase, newBase, limit, oldMemory, newBase[..]);
      path := ShiftView(path, oldBase, newBase);
      version := ShiftView(version, oldBase, newBase);
      body := ShiftView(body, oldBase, newBase);
      headers := ShiftMap(headers, oldBase, newBase, limit, oldMemory);
      queryParams := ShiftMap(queryParams, oldBase, newBase, limit, oldMemory);
    }

    /** `make_owned`: copy the bytes [base, base + len) and repoint every view at the copy. */
    method MakeOwned(base: array<char>, len: nat)
      requires len <= base.Length && Inside(base, len, base[..])
      modifies this
      ensures fresh(ownedStorage) && ownedStorage.Length == len && ownedStorage[..] == base[..len]
      ensures Owns(old(ValueIn(base[..])))
    {
      var storage := new char[len](i requires 0 <= i < len <= base.Length reads base => base[i]);
      assert storage[..] == base[..len];
      assert base[..][..len] == base[..len];
      ownedStorage := storage;
      RebaseViews(base, storage, len, base[..]);
      assert storage[..len] == storage[..];
    }

    /** Own a copy of the bytes the views denote; an empty copy leaves the views alone. */
    method CopyStorage(source: array<char>)
      requires Inside(source, source.Length, source[..])
      modifies this
      ensures fresh(ownedStorage) && ownedStorage[..] == source[..]
      ensures Owns(old(ValueIn(source[..])))
    {
      var storage := new char[source.Length](i requires 0 <= i < source.Length reads source => source[i]);
      assert storage[..] == source[..] && storage[..storage.Length] == source[..source.Length];
      ownedStorage := storage;
      if storage.Length > 0 {
        RebaseViews(source, storage, source.Length, source[..]);
      } else {
        NoBytes(source, storage);
      }
    }

    /** `copy_from` another request: the copy of an owning request owns its own bytes. The copy of one that owns
        nothing has the same views of the external buffer `base`. */
    method CopyFrom(other: HttpRequest, ghost base: array<char>, ghost limit: nat, ghost value: Request)
      requires other != this
      requires other.ownedStorage == null ==>
                 other.Inside(base, limit, base[..]) && other.ValueIn(base[..]) == value
      requires other.ownedStorage != null ==> other.Owns(value)
      modifies this
      ensures other.ownedStorage == null ==>
                ownedStorage == null && Inside(base, limit, base[..]) && ValueIn(base[..]) == value
      ensures other.ownedStorage != null ==> fresh(ownedStorage) && Owns(value) && other.Owns(value)
    {
      hide TableInside, Contents;
      verb, path, version, headers := other.verb, other.path, other.version, other.headers;
      queryParams, body, ownedStorage := other.queryParams, other.body, null;
      var source := other.ownedStorage;
      if source != null {
        CopyStorage(source);
      }
    }

    /** `move_from` another request. A request that owns nothing hands over its views of the external buffer
        `base`; of one that owns its bytes, these change hands: a short `std::string` is relocated, a long one
        keeps its place. */
    method MoveFrom(other: HttpRequest, ghost base: array<char>, ghost limit: nat, ghost value: Request)
      requires other != this
      requires other.ownedStorage == null ==>
                 other.Inside(base, limit, base[..]) && other.ValueIn(base[..]) == value
      requires other.ownedStorage != null ==> other.Owns(value)
      modifies this, other
      ensures old(other.ownedStorage) == null ==>
                ownedStorage == null && Inside(base, limit, base[..]) && ValueIn(base[..]) == value
      ensures old(other.ownedStorage) != null ==>
                Owns(value) && (ownedStorage == old(other.ownedStorage) || fresh(ownedStorage))
      ensures other.ownedStorage == null
    {
      hide TableInside, Contents;
      verb, path, version, headers := other.verb, other.path, other.version, other.headers;
      queryParams, body := other.queryParams, other.body;
      var source := other.ownedStorage;
      other.headers, other.queryParams, other.ownedStorage := map[], map[], null;
      ownedStorage := source;
      if source != null {
        var relocated: bool := *;
        if relocated {
          CopyStorage(source);
        } else {
          assert source[..source.Length] == source[..];
          RebaseViews(source, source, source.Length, source[..]);
        }
      }
    }
  }
}
