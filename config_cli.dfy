/**
 * `aranya-embedded-config`, the host tool that edits the parameter block of
 * a device image: it creates the block with defaults or fetches it, applies
 * the address, peer-list and colour options, stores the block again when it
 * counts as modified, and prints it.
 *
 * The file the block lives in is the `ParameterStore`'s medium; whether
 * opening it and each read and write succeed are inputs.
 */
module ConfigCli {
  import opened Bytes
  import opened Wrappers
  import opened Text
  import opened ParamStore

  /** The command line: `--ir-address`, `--ir-peers`, `--color`, `--create`, `--verbose`. */
  datatype Args = Args(irAddress: Option<u16>, irPeers: Option<string>, color: Option<string>, create: bool, verbose: bool)

  /** Whether each I/O step succeeds: opening the file, the first store or fetch, the final store. */
  datatype IoResults = IoResults(openOk: bool, initialWriteOk: bool, initialReadOk: bool, finalWriteOk: bool, finalReadOk: bool)

  /** `Ok(())` with what was stored and printed, an error from `?`, or a panic from `expect`/`panic!`. */
  datatype CliOutcome = Done(params: Parameters, stored: bool, printed: bool) | StoreFailed(error: StoreError) | OpenFailed | Panicked

  /** `Parameters::default()`. */
  const DEFAULT: Parameters := Parameters(None, 0, [], RgbU8(0, 0, 0))

  /** Each piece parsed as an unsigned number no larger than `max`; None when one does not parse. */
  function ParseAll(pieces: seq<string>, max: nat): (r: Option<seq<nat>>)
    ensures r.Some? <==> forall i | 0 <= i < |pieces| :: ParseUnsigned(pieces[i], max).Some?
    ensures r.Some? ==> |r.value| == |pieces| && forall i | 0 <= i < |pieces| :: r.value[i] == ParseUnsigned(pieces[i], max).value
    ensures r.Some? ==> forall i | 0 <= i < |r.value| :: r.value[i] <= max
  {
    if pieces == [] then Some([])
    else
      match ParseUnsigned(pieces[0], max)
      case None => None
      case Some(n) =>
        var rest := ParseAll(pieces[1..], max);
        if rest.None? then None else Some([n] + rest.value)
  }

  /**
   * `--ir-peers`: the comma-separated pieces parsed as `u16` and collected
   * into a vector of at most `MAX_PEERS`; None where the tool panics (a
   * piece that is not a number, or more than `MAX_PEERS` of them).
   */
  function ParsePeers(s: string): (r: Option<Peers>)
    ensures r.Some? <==> ParseAll(Split(s, ','), U16_MAX).Some? && |Split(s, ',')| <= MAX_PEERS
    ensures r.Some? ==> (|r.value| == |Split(s, ',')| &&
      forall i | 0 <= i < |r.value| :: Some(r.value[i] as nat) == ParseUnsigned(Split(s, ',')[i], U16_MAX))
  {
    var numbers := ParseAll(Split(s, ','), U16_MAX);
    if numbers.None? || |numbers.value| > MAX_PEERS then None
    else Some(seq(|numbers.value|, i requires 0 <= i < |numbers.value| => numbers.value[i] as u16))
  }

  /** `--color`: the comma-separated pieces parsed as `u8`; None unless all parse and there are exactly three. */
  function ParseColor(s: string): (r: Option<RgbU8>)
    ensures r.Some? <==> ParseAll(Split(s, ','), U8_MAX).Some? && |Split(s, ',')| == 3
    ensures r.Some? ==>
      Some(r.value.red as nat) == ParseUnsigned(Split(s, ',')[0], U8_MAX) &&
      Some(r.value.green as nat) == ParseUnsigned(Split(s, ',')[1], U8_MAX) &&
      Some(r.value.blue as nat) == ParseUnsigned(Split(s, ',')[2], U8_MAX)
  {
    var components := ParseAll(Split(s, ','), U8_MAX);
    if components.None? || |components.value| != 3 then None
    else Some(RgbU8(components.value[0], components.value[1], components.value[2]))
  }

  /**
   * The options applied, in the tool's order, to `p`: the edited parameters
   * and the `modified` flag, or None where the tool panics. The colour is
   * applied without marking the parameters modified.
   */
  function Edits(p: Parameters, args: Args): (r: Option<(Parameters, bool)>)
    ensures r.Some? <==>
      (args.irPeers.Some? ==> ParsePeers(args.irPeers.value).Some?) &&
      (args.color.Some? ==> ParseColor(args.color.value).Some?)
    ensures r.Some? ==>
      var (q, modified) := r.value;
      q.graphId == p.graphId &&
      q.address == (if args.irAddress.Some? then args.irAddress.value else p.address) &&
      q.peers == (if args.irPeers.Some? then ParsePeers(args.irPeers.value).value else p.peers) &&
      q.color == (if args.color.Some? then ParseColor(args.color.value).value else p.color) &&
      modified == (args.irAddress.Some? || args.irPeers.Some?)
  {
    var afterAddress := if args.irAddress.Some? then p.(address := args.irAddress.value) else p;
    var peers := if args.irPeers.Some? then ParsePeers(args.irPeers.value) else Some(p.peers);
    var color := if args.color.Some? then ParseColor(args.color.value) else Some(p.color);
    if peers.None? || color.None? then None
    else Some((afterAddress.(peers := peers.value, color := color.value), args.irAddress.Some? || args.irPeers.Some?))
  }

  /** The parameters the edits start from: the defaults stored first under `--create`, otherwise the fetched block. */
  function Initial(args: Args, block: seq<byte>, io: IoResults): (r: Result<Parameters, StoreError>)
    requires |block| == BLOCK_SIZE
    ensures args.create ==> r == (if io.initialWriteOk && io.initialReadOk then Ok(DEFAULT) else Err(IO))
    ensures !args.create ==> r == (if io.initialReadOk then FetchBlock(block) else Err(IO))
  {
    if args.create then (if io.initialWriteOk && io.initialReadOk then Ok(DEFAULT) else Err(IO))
    else if io.initialReadOk then FetchBlock(block) else Err(IO)
  }

  /** The whole run: its outcome, and the block the medium holds afterwards. */
  function Run(args: Args, block: seq<byte>, io: IoResults): (CliOutcome, seq<byte>)
    requires |block| == BLOCK_SIZE
  {
    if !io.openOk then (OpenFailed, block)
    else
      var afterCreate := if args.create && io.initialWriteOk then Block(Serialize(DEFAULT)) else block;
      var initial := Initial(args, block, io);
      if initial.Err? then (StoreFailed(initial.error), afterCreate)
      else
        var edited := Edits(initial.value, args);
        if edited.None? then (Panicked, afterCreate)
        else
          var (p, modified) := edited.value;
          var final := if modified && io.finalWriteOk then Block(Serialize(p)) else afterCreate;
          if modified && !(io.finalWriteOk && io.finalReadOk) then (StoreFailed(IO), final)
          else (Done(p, modified, !modified || args.verbose), final)
  }

  /** `main`: open, create or fetch, apply the options one by one, store if modified, print. */
  method Configure(args: Args, store: ParameterStore, io: IoResults) returns (outcome: CliOutcome)
    requires store.Valid()
    modifies store.io
    ensures store.Valid()
    ensures (outcome, store.io[..]) == Run(args, old(store.io[..]), io)
  {
    if !io.openOk {
      return OpenFailed;
    }
    var loaded := Load(args, store, io);
    if loaded.Err? {
      return StoreFailed(loaded.error);
    }
    var edited := ApplyEdits(loaded.value, args);
    if edited.None? {
      return Panicked;
    }
    var (params, modified) := edited.value;
    if modified {
      var stored := store.Store(params, io.finalWriteOk, io.finalReadOk);
      if stored.Err? {
        return StoreFailed(stored.error);
      }
    }
    outcome := Done(params, modified, !modified || args.verbose);
  }

  /** `--create` stores the defaults first; either way the parameters are then read back. */
  method Load(args: Args, store: ParameterStore, io: IoResults) returns (r: Result<Parameters, StoreError>)
    requires store.Valid()
    modifies store.io
    ensures store.Valid()
    ensures r == Initial(args, old(store.io[..]), io)
    ensures store.io[..] == if args.create && io.initialWriteOk then Block(Serialize(DEFAULT)) else old(store.io[..])
  {
    if args.create {
      var stored := store.Store(DEFAULT, io.initialWriteOk, io.initialReadOk);
      r := stored;
    } else {
      r := store.Fetch(io.initialReadOk);
    }
  }

  /** The command-line edits, applied one after another to the loaded parameters. */
  method ApplyEdits(initial: Parameters, args: Args) returns (r: Option<(Parameters, bool)>)
    ensures r == Edits(initial, args)
  {
    var params := initial;
    var modified := false;
    if args.irAddress.Some? {
      params := params.(address := args.irAddress.value);
      modified := true;
    }
    if args.irPeers.Some? {
      var peers := ParsePeers(args.irPeers.value);
      if peers.None? {
        return None;
      }
      params := params.(peers := peers.value);
      modified := true;
    }
    if args.color.Some? {
      var color := ParseColor(args.color.value);
      if color.None? {
        return None;
      }
      params := params.(color := color.value);
    }
    r := Some((params, modified));
  }

  /** The parameters a run reports as stored are what the medium then holds. */
  lemma {:induction false} StoredIsFetched(args: Args, block: seq<byte>, io: IoResults)
    requires |block| == BLOCK_SIZE
    requires Run(args, block, io).0.Done? && Run(args, block, io).0.stored
    ensures FetchBlock(Run(args, block, io).1) == Ok(Run(args, block, io).0.params)
  {
    var initial := Initial(args, block, io);
    var (p, modified) := Edits(initial.value, args).value;
    assert Run(args, block, io).0.params == p && modified;
    assert Run(args, block, io).1 == Block(Serialize(p));
    FetchStoredBlock(p);
  }

  /** A run stores exactly when an address or a peer list was given, and prints exactly when it does not store or is verbose. */
  lemma {:induction false} StoredIffModified(args: Args, block: seq<byte>, io: IoResults)
    requires |block| == BLOCK_SIZE
    requires Run(args, block, io).0.Done?
    ensures Run(args, block, io).0.stored <==> args.irAddress.Some? || args.irPeers.Some?
    ensures Run(args, block, io).0.printed <==> !Run(args, block, io).0.stored || args.verbose
  {
  }

  /** Without `--create` and without a stored edit, the medium is left as it was. */
  lemma {:induction false} UnmodifiedLeavesBlock(args: Args, block: seq<byte>, io: IoResults)
    requires |block| == BLOCK_SIZE
    requires !args.create && args.irAddress.None? && args.irPeers.None?
    ensures Run(args, block, io).1 == block
  {
  }

  /** With `--create`, the medium holds the defaults even when the run then panics on an option. */
  lemma {:induction false} CreateStoresDefaultsFirst(args: Args, block: seq<byte>, io: IoResults)
    requires |block| == BLOCK_SIZE
    requires io.openOk && args.create && io.initialWriteOk
    requires args.irAddress.None? && args.irPeers.None?
    ensures FetchBlock(Run(args, block, io).1) == Ok(DEFAULT)
  {
    FetchStoredBlock(DEFAULT);
  }

  /** The text of a peer list, numbers in decimal separated by commas. */
  function PeersText(peers: seq<u16>): (s: string)
    requires |peers| > 0
    ensures Split(s, ',') == seq(|peers|, i requires 0 <= i < |peers| => Show(peers[i]))
  {
    var pieces := seq(|peers|, i requires 0 <= i < |peers| => Show(peers[i]));
    JoinSplit(pieces, ',');
    Join(pieces, ',')
  }

  /** Any non-empty peer list written out in decimal is parsed back as itself. */
  lemma {:induction false} PeersRoundTrip(peers: Peers)
    requires |peers| > 0
    ensures ParsePeers(PeersText(peers)) == Some(peers)
  {
    var pieces := Split(PeersText(peers), ',');
    forall i | 0 <= i < |pieces|
      ensures ParseUnsigned(pieces[i], U16_MAX) == Some(peers[i] as nat)
    {
      ParseShow(peers[i], U16_MAX);
    }
    var r := ParsePeers(PeersText(peers));
    assert r.Some?;
    assert r.value == peers;
  }

  /** An empty `--ir-peers` is one empty piece, which does not parse: the peer list cannot be cleared. */
  lemma {:induction false} EmptyPeersPanics()
    ensures ParsePeers("") == None
  {
    assert Split("", ',') == [""];
  }

  /** Any colour written as `r,g,b` in decimal is parsed back as itself. */
  lemma {:induction false} ColorRoundTrip(c: RgbU8)
    ensures ParseColor(Show(c.red) + "," + Show(c.green) + "," + Show(c.blue)) == Some(c)
  {
    var pieces := [Show(c.red), Show(c.green), Show(c.blue)];
    JoinSplit(pieces, ',');
    assert pieces[1..] == [Show(c.green), Show(c.blue)] && pieces[1..][1..] == [Show(c.blue)];
    assert Join(pieces[1..], ',') == Show(c.green) + "," + Show(c.blue);
    assert Join(pieces, ',') == Show(c.red) + "," + (Show(c.green) + "," + Show(c.blue));
    assert Join(pieces, ',') == Show(c.red) + "," + Show(c.green) + "," + Show(c.blue);
    ParseShow(c.red, U8_MAX);
    ParseShow(c.green, U8_MAX);
    ParseShow(c.blue, U8_MAX);
  }

  /**
   * As written, `--color` on its own is reported and printed but never
   * stored: the medium keeps the old colour.
   */
  lemma {:induction false} ColorOnlyIsLost(block: seq<byte>, io: IoResults, c: RgbU8)
    requires |block| == BLOCK_SIZE
    requires io.openOk && io.initialReadOk && FetchBlock(block).Ok? && FetchBlock(block).value.color != c
    ensures var args := Args(None, None, Some(Show(c.red) + "," + Show(c.green) + "," + Show(c.blue)), false, false);
      Run(args, block, io).0 == Done(FetchBlock(block).value.(color := c), false, true) &&
      FetchBlock(Run(args, block, io).1).value.color != c
  {
    ColorRoundTrip(c);
  }

  /** The evident intent: every option that changes a field marks the parameters modified. */
  function EditsCorrected(p: Parameters, args: Args): (r: Option<(Parameters, bool)>)
    ensures Edits(p, args).Some? <==> r.Some?
    ensures r.Some? ==> r.value.0 == Edits(p, args).value.0
  {
    var edited := Edits(p, args);
    if edited.None? then None
    else Some((edited.value.0, args.irAddress.Some? || args.irPeers.Some? || args.color.Some?))
  }

  /** With the correction, a run stores whenever any option was given, so no edit is lost. */
  lemma {:induction false} CorrectedStoresEveryEdit(p: Parameters, args: Args)
    requires EditsCorrected(p, args).Some?
    ensures EditsCorrected(p, args).value.1 <==> args.irAddress.Some? || args.irPeers.Some? || args.color.Some?
    ensures !EditsCorrected(p, args).value.1 ==> EditsCorrected(p, args).value.0 == p
  {
  }
}
