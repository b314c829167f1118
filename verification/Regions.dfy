/** Memory regions: registering them, describing them in the private data of an accept, and
    reading the description on the other side. */
module Regions {
  import opened Counters
  import opened Options

  const MAX_MR := 5
  const MAX_SENT := 3

  /** A registered region (struct ibv_mr); its length is a size_t. */
  datatype Mr = Mr(addr: nat, length: nat, rkey: Uint32)

  /** struct mr_context */
  datatype MrContext = MrContext(addr: nat, length: Uint32, key: Uint32)

  /** The regions' lengths fit 32 bits, as they do when register_mr has registered them. */
  predicate Short(local: seq<Mr>) {
    forall mr | mr in local :: mr.length < MODULUS
  }

  /** What registering a region gives: a key, or None for a failure. */
  function Granted(region: MrContext, key: Option<Uint32>): Option<Mr> {
    if key.Some? then Some(Mr(region.addr, region.length, key.value)) else None
  }

  /** What the peer is told about a region; the length is cut to 32 bits. */
  function Described(mr: Mr): MrContext {
    MrContext(mr.addr, Low(mr.length), mr.rkey)
  }

  function Describe(local: seq<Mr>): (d: seq<MrContext>)
    ensures |d| == |local| && forall i | 0 <= i < |d| :: d[i] == Described(local[i])
  {
    if local == [] then [] else [Described(local[0])] + Describe(local[1..])
  }

  function Values(s: seq<Option<Mr>>): (v: seq<Mr>)
    requires forall i | 0 <= i < |s| :: s[i].Some?
    ensures |v| == |s| && forall i | 0 <= i < |v| :: v[i] == s[i].value
  {
    if s == [] then [] else [s[0].value] + Values(s[1..])
  }

  /** struct private_data as a value: what travels, and what the server's buffer holds. */
  datatype Message = Message(numMrs: nat, entry0: MrContext, entry1: MrContext, entry2: MrContext)

  /** build_private_data: only the first entries of the buffer are written. */
  function Build(data: Message, local: seq<Mr>): Message
    requires |local| <= MAX_SENT
  {
    Message(|local|,
            if |local| > 0 then Described(local[0]) else data.entry0,
            if |local| > 1 then Described(local[1]) else data.entry1,
            if |local| > 2 then Described(local[2]) else data.entry2)
  }

  /** update_remote_mr: as many entries are read as the count says. */
  function Decode(data: Message): seq<MrContext>
    requires data.numMrs <= MAX_SENT
  {
    [data.entry0, data.entry1, data.entry2][..data.numMrs]
  }

  /** Decoding what was built gives the description of the regions, whatever the buffer held. */
  lemma DecodeBuild(data: Message, local: seq<Mr>)
    requires |local| <= MAX_SENT
    ensures Decode(Build(data, local)) == Describe(local)
  {
    var d := Decode(Build(data, local));
    forall i | 0 <= i < |d|
      ensures d[i] == Describe(local)[i]
    {
    }
  }

  /** The description is faithful for regions whose length fits 32 bits, and for no others. */
  lemma DescribedFaithfully(mr: Mr)
    ensures Described(mr).length == mr.length <==> mr.length < MODULUS
    ensures Described(mr).addr == mr.addr && Described(mr).key == mr.rkey
  {
  }

  /** So regions registered by register_mr arrive exactly, length included. */
  lemma DescribedExactly(local: seq<Mr>)
    requires Short(local)
    ensures forall i | 0 <= i < |local| ::
              Describe(local)[i] == MrContext(local[i].addr, local[i].length, local[i].rkey)
  {
    forall i | 0 <= i < |local|
      ensures Describe(local)[i] == MrContext(local[i].addr, local[i].length, local[i].rkey)
    {
      assert local[i] in local;
      DescribedFaithfully(local[i]);
    }
  }

  /** struct private_data: the arrays have room for three regions. */
  class PrivateData {
    var numMrs: nat
    const addr: array<nat>
    const length: array<Uint32>
    const rkey: array<Uint32>

    ghost predicate Valid() {
      addr.Length == length.Length == rkey.Length == MAX_SENT && length != rkey
    }

    /** Entry `i` as the receiver will read it. */
    ghost function Entry(i: nat): MrContext
      requires Valid() && i < MAX_SENT
      reads addr, length, rkey
    {
      MrContext(addr[i], length[i], rkey[i])
    }

    ghost function Snapshot(): Message
      requires Valid()
      reads this, addr, length, rkey
    {
      Message(numMrs, Entry(0), Entry(1), Entry(2))
    }

    constructor ()
      ensures Valid() && fresh(addr) && fresh(length) && fresh(rkey)
    {
      numMrs := 0;
      addr, length, rkey := new nat[MAX_SENT](_ => 0), new Uint32[MAX_SENT](_ => 0), new Uint32[MAX_SENT](_ => 0);
    }
  }

  /** The part of a connection context that deals with regions. */
  class RegionContext {
    const localMr: array<Option<Mr>>
    const remoteMr: array<Option<MrContext>>
    var numLocalMrs: nat
    var numRemoteMrs: nat

    ghost predicate Valid() {
      localMr.Length == remoteMr.Length == MAX_MR
    }

    constructor ()
      ensures Valid() && fresh(localMr) && fresh(remoteMr)
      ensures numLocalMrs == 0 && forall i | 0 <= i < MAX_MR :: localMr[i].None?
    {
      localMr, remoteMr := new Option<Mr>[MAX_MR](_ => None), new Option<MrContext>[MAX_MR](_ => None);
      numLocalMrs, numRemoteMrs := 0, 0;
    }

    /** What has been registered has the address and the length it was asked for with. */
    ghost predicate AllShort()
      reads localMr
    {
      forall i | 0 <= i < localMr.Length && localMr[i].Some? :: localMr[i].value.length < MODULUS
    }

    /** register_mr: `keys[i]` is the remote key that registering region `i` would give, None for a
        failure.  The result is false when the process exits with an error.  A region registered now has
        the address and the length the caller gave; one registered before keeps its own. */
    method RegisterMr(mrCtxs: seq<MrContext>, keys: seq<Option<Uint32>>) returns (ok: bool)
      requires Valid() && |keys| == |mrCtxs|
      modifies localMr
      ensures ok <==> |mrCtxs| <= 5 &&
                      forall i | 0 <= i < |mrCtxs| :: old(localMr[i]).Some? || keys[i].Some?
      ensures ok ==> forall i | 0 <= i < MAX_MR ::
                if i < |mrCtxs| && old(localMr[i]).None? then
                  && localMr[i].Some?
                  && localMr[i].value.addr == mrCtxs[i].addr && localMr[i].value.length == mrCtxs[i].length
                  && localMr[i].value.rkey == keys[i].value
                else localMr[i] == old(localMr[i])
      ensures old(AllShort()) ==> AllShort()
    {
      for i := 0 to |mrCtxs|
        invariant i <= MAX_MR
        invariant forall j | 0 <= j < i :: old(localMr[j]).Some? || keys[j].Some?
        invariant forall j | 0 <= j < MAX_MR ::
          localMr[j] == if j < i && old(localMr[j]).None? then Granted(mrCtxs[j], keys[j]) else old(localMr[j])
      {
        if i > MAX_MR - 1 {
          return false;
        }
        if localMr[i].None? {
          localMr[i] := Granted(mrCtxs[i], keys[i]);
        }
        if localMr[i].None? {
          return false;
        }
      }
      return true;
    }

    /** The registered local regions. */
    ghost function Local(): (local: seq<Mr>)
      requires Valid() && numLocalMrs <= MAX_MR
      requires forall i | 0 <= i < numLocalMrs :: localMr[i].Some?
      reads this, localMr
      ensures AllShort() ==> Short(local)
    {
      Values(localMr[..numLocalMrs])
    }

    /** build_private_data: entries at and beyond the number of regions keep what they held. */
    method BuildPrivateData(data: PrivateData)
      requires Valid() && data.Valid() && numLocalMrs <= MAX_SENT
      requires forall i | 0 <= i < numLocalMrs :: localMr[i].Some?
      requires localMr as object != data.addr && localMr as object != data.length && localMr as object != data.rkey
      modifies data, data.addr, data.length, data.rkey
      ensures data.Snapshot() == Build(old(data.Snapshot()), Local())
    {
      hide AllShort, Short;
      data.numMrs := numLocalMrs;
      for i := 0 to data.numMrs
        invariant data.numMrs == numLocalMrs && Local() == old(Local())
        invariant forall j | 0 <= j < MAX_SENT ::
          data.Entry(j) == if j < i then Described(localMr[j].value) else old(data.Entry(j))
      {
        data.addr[i] := localMr[i].value.addr;
        data.length[i] := Low(localMr[i].value.length);
        data.rkey[i] := localMr[i].value.rkey;
      }
    }

    /** setup_rc_param and update_remote_mr: decode what the accept carried; entries of the remote
        table beyond the count keep what they held. */
    method UpdateRemoteMr(data: PrivateData)
      requires Valid() && data.Valid() && data.numMrs <= MAX_SENT
      requires remoteMr as object != data.addr && remoteMr as object != data.length && remoteMr as object != data.rkey
      modifies `numRemoteMrs, remoteMr
      ensures numRemoteMrs == data.numMrs
      ensures forall i | 0 <= i < MAX_MR ::
                remoteMr[i] == if i < data.numMrs then Some(Decode(data.Snapshot())[i]) else old(remoteMr[i])
    {
      numRemoteMrs := data.numMrs;
      for i := 0 to data.numMrs
        invariant numRemoteMrs == data.numMrs == old(data.numMrs)
        invariant forall j | 0 <= j < MAX_MR ::
          remoteMr[j] == if j < i then Some(data.Entry(j)) else old(remoteMr[j])
      {
        remoteMr[i] := Some(MrContext(data.addr[i], data.length[i], data.rkey[i]));
      }
    }
  }

  /** The whole exchange.  A server registers regions in an empty context and describes them in a buffer
      that may hold anything; its peer, reading that buffer, has exactly what was asked for, with the
      keys granted. */
  method Exchange(server: RegionContext, peer: RegionContext, data: PrivateData,
                  mrCtxs: seq<MrContext>, keys: seq<Uint32>)
    requires server.Valid() && peer.Valid() && data.Valid()
    requires |mrCtxs| == |keys| <= 3 && forall i | 0 <= i < 5 :: server.localMr[i].None?
    requires server.localMr as object != data.addr && server.localMr as object != data.length
             && server.localMr as object != data.rkey
    requires peer.remoteMr as object != data.addr && peer.remoteMr as object != data.length
             && peer.remoteMr as object != data.rkey
    requires server != peer && server.localMr as object != peer.remoteMr
    modifies server, server.localMr, data, data.addr, data.length, data.rkey, peer, peer.remoteMr
    ensures peer.numRemoteMrs == |mrCtxs|
    ensures forall i | 0 <= i < |mrCtxs| ::
              peer.remoteMr[i] == Some(MrContext(mrCtxs[i].addr, mrCtxs[i].length, keys[i]))
  {
    hide Build, Decode, Describe;
    var granted := seq(|keys|, i requires 0 <= i < |keys| => Some(keys[i]));
    var ok := server.RegisterMr(mrCtxs, granted);
    assert ok;
    server.numLocalMrs := |mrCtxs|;
    ghost var before, local := data.Snapshot(), server.Local();
    server.BuildPrivateData(data);
    BuildCounts(before, local);
    DecodeBuild(before, local);
    DescribedExactly(local);
    peer.UpdateRemoteMr(data);
  }

  lemma BuildCounts(data: Message, local: seq<Mr>)
    requires |local| <= MAX_SENT
    ensures Build(data, local).numMrs == |local|
  {
  }

  /** Registering again, with whatever arguments, changes nothing for regions already registered. */
  method RegisterTwice(ctx: RegionContext, first: seq<MrContext>, keys: seq<Option<Uint32>>,
                       again: seq<MrContext>, newKeys: seq<Option<Uint32>>)
    returns (ok1: bool, ok2: bool)
    requires ctx.Valid() && |keys| == |first| && |newKeys| == |again| <= |first|
    modifies ctx.localMr
    ensures ok1 ==> ok2 && |first| <= MAX_MR && forall i | 0 <= i < |first| ::
              if old(ctx.localMr[i]).Some? then ctx.localMr[i] == old(ctx.localMr[i])
              else keys[i].Some? && ctx.localMr[i] == Some(Mr(first[i].addr, first[i].length, keys[i].value))
  {
    ok1 := ctx.RegisterMr(first, keys);
    ok2 := ctx.RegisterMr(again, newKeys);
  }
}
