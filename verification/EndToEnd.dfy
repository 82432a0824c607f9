/** From the bytes of an add request, through the multiplexer and the directory, to the bytes of a search result. */
module EndToEnd {
  import opened Go
  import opened Ber
  import opened Messages
  import opened MessageTheorems
  import opened Responses
  import opened Routing
  import opened Matching
  import opened Entries
  import opened DirectoryModel
  import opened DirectoryTheorems
  import opened DirectoryHandlers
  import opened DirectoryService
  import opened SearchTheorems

  /** The bytes of a message are read as one packet that decodes to the message. */
  ghost predicate Delivered(m: Message, filter: Packet, decompile: Decompile, rest: string) {
    && ReadPacket(Serialise(OnWire(m, filter)) + rest) == Ok((Reread(OnWire(m, filter)), rest))
    && NewMessage(Reread(OnWire(m, filter)), decompile) == Ok(m)
  }

  /** A client that reads these bytes finds an entry for message `id`, with this DN and these attributes. */
  ghost predicate ReadsEntry(bytes: string, rest: string, id: int64, dn: string, attributes: seq<Attribute>) {
    var r := ReadPacket(bytes + rest);
    && r.Ok? && r.value.1 == rest && MessageID(r.value.0) == Ok(id) && |r.value.0.children| >= 2
    && var body := r.value.0.children[1];
       && Is(body, Application, Constructed, SEARCH_RESULT_ENTRY) && |body.children| == 2
       && body.children[0].data == dn && DecodeAttributes(body.children[1].children) == Ok(attributes)
  }

  lemma EntryOnWire(r: Response, rest: string)
    requires r.Entry? && |ResponsePacket(r).data| < TWO_63
    ensures ReadsEntry(Serialise(ResponsePacket(r)), rest, r.messageID, r.dn, r.attributes)
  {
    ResponseReadsBack(r, rest);
    EntryReadsBack(r);
    var p := Reread(ResponsePacket(r));
    RereadEnvelope(r.messageID, Body(r), []);
    EnvelopeParts(p, r.messageID, Reread(Body(r)), RereadAll([]));
    assert p.children[1] == Reread(Body(r));
  }

  /** A search at this base is one for the generic handler, and not for token groups. */
  predicate Generic(c: Config, baseDN: string, fold: Fold) {
    && c.userDN != "" && c.groupDN != "" && !fold(baseDN, c.userDN) && !fold(baseDN, c.groupDN)
    && Contains(baseDN, c.userDN) && !BySid(c, baseDN)
  }

  /** A message that comes back from its bytes, where the filter of a search is given compiled. */
  ghost predicate Sent(m: Message, filter: Packet, decompile: Decompile) {
    && MessageRoundTrips(m) && |OnWire(m, filter).data| < TWO_63
    && (m.Search? ==> WellFormed(filter) && !IsEOC(filter) && decompile(Reread(filter)) == Ok(m.filter))
  }

  ghost predicate Writable(stream: seq<Response>) {
    forall i :: 0 <= i < |stream| ==> |ResponsePacket(stream[i]).data| < TWO_63
  }

  /** Of the responses, number `k` is read by a client as an entry with the last attribute of each type sent. */
  ghost predicate HasEntry(stream: seq<Response>, k: nat, rest: string, search: Message, add: Message, got: seq<Attribute>)
    requires add.Add?
  {
    && k < |stream| && LastOnes(got, add.attrs)
    && ReadsEntry(Serialise(ResponsePacket(stream[k])), rest, search.id, add.dn, got)
  }

  lemma SentDelivered(m: Message, filter: Packet, decompile: Decompile, rest: string)
    requires Sent(m, filter, decompile)
    ensures Delivered(m, filter, decompile, rest)
  {
    RequestWireRoundTrip(m, filter, decompile, rest);
  }

  lemma ServedAdd(d: Dir, c: Config, add: Message, fold: Fold, ok: Writes)
    requires add.Add?
    ensures Served(d, c, add, fold, ok) == (HandleAdd(d, add).0, [HandleAdd(d, add).1])
  {
  }

  lemma ServedSearch(d: Dir, c: Config, search: Message, fold: Fold, ok: Writes)
    requires search.Search? && Generic(c, search.baseDN, fold)
    ensures Served(d, c, search, fold, ok) == (d, SearchGeneric(d, c, search, ok))
  {
  }

  lemma AddThenSearchReads(d: Dir, c: Config, add: Message, search: Message, ok: Writes, rest: string)
    returns (k: nat, got: seq<Attribute>)
    requires add.Add? && HandleAdd(d, add).1.code == SUCCESS && PlainAdd(add) && Contains(add.dn, c.userDN)
    requires search.Search? && search.baseDN == add.dn && !BySid(c, add.dn) && forall i :: ok(i)
    requires Writable(SearchGeneric(HandleAdd(d, add).0, c, search, ok))
    ensures HasEntry(SearchGeneric(HandleAdd(d, add).0, c, search, ok), k, rest, search, add, got)
  {
    k := AddThenSearch(d, c, add, search, ok);
    var r := SearchGeneric(HandleAdd(d, add).0, c, search, ok)[k];
    got := r.attributes;
    EntryOnWire(r, rest);
  }

  /**
   An add request of a plain DN inside the user base, and then a search at that DN, both sent as
   bytes and both routed by the directory's multiplexer: if the add succeeds, one of the results the
   search writes is read by the client as an entry of that DN that has, for each type in the add
   request, the values of the last attribute of that type, in order of type.
   */
  lemma AddThenSearchOnWire(d: Dir, c: Config, add: Message, search: Message, filter: Packet, decompile: Decompile,
                            fold: Fold, ok: Writes, rest: string) returns (k: nat, got: seq<Attribute>)
    requires add.Add? && PlainAdd(add) && Sent(add, filter, decompile)
    requires search.Search? && search.baseDN == add.dn && Sent(search, filter, decompile)
    requires Generic(c, add.dn, fold) && HandleAdd(d, add).1.code == SUCCESS && forall i :: ok(i)
    requires Writable(Served(Served(d, c, add, fold, ok).0, c, search, fold, ok).1)
    ensures Delivered(add, filter, decompile, rest) && Delivered(search, filter, decompile, rest)
    ensures Served(d, c, add, fold, ok).1 == [HandleAdd(d, add).1]
    ensures HasEntry(Served(Served(d, c, add, fold, ok).0, c, search, fold, ok).1, k, rest, search, add, got)
  {
    SentDelivered(add, filter, decompile, rest);
    SentDelivered(search, filter, decompile, rest);
    ServedAdd(d, c, add, fold, ok);
    ServedSearch(HandleAdd(d, add).0, c, search, fold, ok);
    k, got := AddThenSearchReads(d, c, add, search, ok, rest);
  }

  /** The bytes of a message, and whatever follows them, served by the directory's objects. */
  method ServeSent(dir: Directory, mux: Mux, id: nat, m: Message, filter: Packet, decompile: Decompile, fold: Fold,
                   ok: Writes, c: Config, rest: string, ghost tokens: set<object>) returns (r: Outcome<seq<Response>>)
    requires dir.Valid() && dir.Configured(c) && dir.TokensRead(c, tokens) && Sent(m, filter, decompile)
    requires mux.Valid() && mux.routes == DirectoryRoutes(c) && mux.defaultRoute == Some(ON_NOT_FOUND)
    modifies dir`users, dir`groups, dir`model, dir`repr, dir.repr
    ensures dir.Valid() && fresh(dir.repr - old(dir.repr))
    ensures r.Ok? && (dir.model, r.value) == Served(old(dir.model), c, m, fold, ok)
  {
    SentDelivered(m, filter, decompile, rest);
    r := ServeBytes(dir, mux, id, Serialise(OnWire(m, filter)) + rest, decompile, fold, ok, c, tokens);
  }
}
