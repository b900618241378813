/** Self-update: receiving a new executable block by block, and the hash that decides whether it is installed. */
module SelfUpdate {
  import opened Common
  import FileHash

  const TRIES: nat := 4

  /** How one attempt to append to the update file can go. A failed write leaves the contents as they were. */
  datatype Io = OpenFailed | WriteFailed | Written

  /** What the tries to append a block would meet, whether or not all are needed. */
  type Tries = io: seq<Io> | |io| == TRIES witness [Written, Written, Written, Written]

  /**
   The hash of a file, which the agent computes through its general buffer, whose old contents come second.
   None stands for a file that is refused.
   */
  type FileDigest = (seq<byte>, seq<byte>) -> Option<seq<byte>>

  datatype Event =
    | Begin                             // the file transfer starts
    | Block(data: seq<byte>, io: Tries)
    | End(announced: seq<byte>, scratch: seq<byte>)

  // ----- Specification -----

  function Contents(file: Option<seq<byte>>): seq<byte> { if file.Some? then file.value else [] }

  /** A block is acknowledged when one of the tries writes it; an empty one never counts as written. */
  predicate Acknowledged(data: seq<byte>, io: Tries) { data != [] && Written in io }

  /** One of the first `n` tries could open the file, and so created it. */
  predicate Opens(io: Tries, n: nat) { exists i :: 0 <= i < TRIES && i < n && !io[i].OpenFailed? }

  predicate Installs(digest: FileDigest, file: Option<seq<byte>>, e: Event) {
    e.End? && file.Some? && digest(file.value, e.scratch) == Some(e.announced)
  }

  predicate Deletes(digest: FileDigest, file: Option<seq<byte>>, e: Event) {
    e.Begin? || (e.End? && !Installs(digest, file, e))
  }

  function AppendBlock(file: Option<seq<byte>>, data: seq<byte>, io: Tries): Option<seq<byte>> {
    if Acknowledged(data, io) then Some(Contents(file) + data)
    else if Opens(io, TRIES) then Some(Contents(file))
    else file
  }

  function Step(digest: FileDigest, file: Option<seq<byte>>, e: Event): Option<seq<byte>> {
    if Deletes(digest, file, e) then None
    else if e.Block? then AppendBlock(file, e.data, e.io)
    else file
  }

  function Run(digest: FileDigest, file: Option<seq<byte>>, events: seq<Event>): Option<seq<byte>>
    decreases |events|
  {
    if events == [] then file else Run(digest, Step(digest, file, events[0]), events[1..])
  }

  lemma {:induction false} RunSplits(digest: FileDigest, file: Option<seq<byte>>, a: seq<Event>, b: seq<Event>)
    ensures Run(digest, file, a + b) == Run(digest, Run(digest, file, a), b)
    decreases |a|
  {
    if a == [] {
      assert a + b == b;
    } else {
      assert (a + b)[1..] == a[1..] + b;
      RunSplits(digest, Step(digest, file, a[0]), a[1..], b);
    }
  }

  // ----- What the file is -----

  /** How many of the events come before the end of the last deletion. */
  function LastDeletion(digest: FileDigest, file: Option<seq<byte>>, events: seq<Event>): (n: nat)
    ensures n <= |events|
    decreases |events|
  {
    if events == [] then 0
    else
      var later := LastDeletion(digest, Step(digest, file, events[0]), events[1..]);
      if later > 0 then later + 1 else if Deletes(digest, file, events[0]) then 1 else 0
  }

  /** What an event adds to the file. */
  function Acked(e: Event): seq<byte> { if e.Block? && Acknowledged(e.data, e.io) then e.data else [] }

  /** Everything that was acknowledged, joined. */
  function AckedData(events: seq<Event>): seq<byte> {
    if events == [] then [] else Acked(events[0]) + AckedData(events[1..])
  }

  lemma StepKeepsOrAppends(digest: FileDigest, file: Option<seq<byte>>, e: Event)
    ensures Contents(Step(digest, file, e)) == if Deletes(digest, file, e) then [] else Contents(file) + Acked(e)
  {
  }

  /** In every run the file is the blocks acknowledged since it was last deleted, one after another. */
  lemma {:induction false} FileIsTheAckedBlocks(digest: FileDigest, file: Option<seq<byte>>, events: seq<Event>)
    ensures var cut := LastDeletion(digest, file, events);
      Contents(Run(digest, file, events)) ==
      (if cut == 0 then Contents(file) else []) + AckedData(events[cut..])
    decreases |events|
  {
    var cut := LastDeletion(digest, file, events);
    if events == [] {
      assert events[cut..] == [];
    } else {
      var e, rest := events[0], events[1..];
      var next := Step(digest, file, e);
      FileIsTheAckedBlocks(digest, next, rest);
      StepKeepsOrAppends(digest, file, e);
      if cut > 0 {
        assert events[cut..] == rest[cut - 1..];
      } else {
        assert events[cut..] == events && rest[cut..] == rest;
        assert Contents(next) + AckedData(rest) == Contents(file) + (Acked(e) + AckedData(rest));
      }
    }
  }

  /**
   Nothing is installed but a file with the announced hash: the blocks that the server was told about since the last
   deletion, after what was there before if there was none.
   */
  lemma InstalledIsWhatWasSent(digest: FileDigest, file: Option<seq<byte>>, events: seq<Event>, e: Event)
    requires Installs(digest, Run(digest, file, events), e)
    ensures var cut := LastDeletion(digest, file, events);
      var installed := (if cut == 0 then Contents(file) else []) + AckedData(events[cut..]);
      && digest(installed, e.scratch) == Some(e.announced)
      && Run(digest, file, events + [e]) == Some(installed)
  {
    FileIsTheAckedBlocks(digest, file, events);
    RunSplits(digest, file, events, [e]);
  }

  // ----- The agent's side -----

  /** `win32`: the agent looks for executable headers. */
  function AgentDigest(hash: seq<byte> -> seq<byte>, win32: bool): FileDigest {
    (data, scratch) =>
      if |scratch| < 24 then None
      else match FileHash.Digested(data, win32, scratch)
        case None => None
        case Some(octets) => Some(hash(octets))
  }

  class Updater {
    const hash: seq<byte> -> seq<byte>
    const win32: bool
    const disabled: bool
    var file: Option<seq<byte>>
    var installing: bool

    constructor (hash: seq<byte> -> seq<byte>, win32: bool, disabled: bool, leftover: Option<seq<byte>>)
      ensures this.hash == hash && this.win32 == win32 && this.disabled == disabled
      ensures file == leftover && !installing
    {
      this.hash, this.win32, this.disabled, file, installing := hash, win32, disabled, leftover, false;
    }

    method OnBegin()
      modifies this`file
      ensures file == if disabled then old(file) else Step(AgentDigest(hash, win32), old(file), Begin)
    {
      if disabled { return; }
      file := None;
    }

    method AppendFile(data: seq<byte>, io: Io) returns (written: bool)
      modifies this`file
      ensures written <==> io.Written? && data != []
      ensures file == if io.OpenFailed? then old(file) else Some(Contents(old(file)) + (if written then data else []))
    {
      if io.OpenFailed? { return false; }
      if file.None? { file := Some([]); }
      written := io.Written? && |data| > 0;
      if written { file := Some(file.value + data); }
      assert !written ==> Contents(file) + [] == Contents(file);
    }

    method OnBlock(data: seq<byte>, io: Tries) returns (acknowledged: bool)
      modifies this`file
      ensures acknowledged <==> !disabled && data != [] && exists i :: 0 <= i < 4 && io[i].Written?
      ensures file == if disabled then old(file) else Step(AgentDigest(hash, win32), old(file), Block(data, io))
    {
      if disabled { return false; }
      var retryCount := 0;
      while true
        invariant 0 <= retryCount < TRIES
        invariant forall i :: 0 <= i < retryCount ==> !(io[i].Written? && data != [])
        invariant file == if Opens(io, retryCount) then Some(Contents(old(file))) else old(file)
        decreases TRIES - retryCount
      {
        ghost var before := file;
        var written := AppendFile(data, io[retryCount]);
        if written {
          assert io[retryCount] in io;
          break;
        }
        assert Contents(before) + [] == Contents(before);
        assert Opens(io, retryCount + 1) <==> Opens(io, retryCount) || !io[retryCount].OpenFailed?;
        retryCount := retryCount + 1;
        if retryCount >= TRIES { break; }
      }
      acknowledged := retryCount < TRIES;
    }

    /** The transfer is complete: install the file when its hash is the announced one, else delete it. */
    method OnEnd(announced: seq<byte>, scratch: array<byte>)
      requires scratch.Length >= 24
      requires file.Some? ==>
        && |file.value| < FileHash.MAX_FILE
        && FileHash.Addressable(FileHash.Parse(file.value, win32, scratch[..]), |file.value|, scratch.Length)
      modifies this, scratch
      ensures var e := End(announced, old(scratch[..]));
        && installing == (old(installing) || (!disabled && Installs(AgentDigest(hash, win32), old(file), e)))
        && file == if disabled then old(file) else Step(AgentDigest(hash, win32), old(file), e)
    {
      if disabled { return; }
      if file.None? { return; }
      var digested := FileHash.GenerateFileHash(file.value, win32, scratch);
      if digested.Some? && hash(digested.value) == announced {
        installing := true;
      } else {
        file := None;
      }
    }
  }

  // ----- A whole transfer -----

  /** Some octets come, and one of the four tries writes them. */
  predicate Arrives(e: Event) { e.Block? && e.data != [] && exists i :: 0 <= i < 4 && e.io[i].Written? }

  predicate AllArrive(blocks: seq<Event>) { forall i :: 0 <= i < |blocks| ==> Arrives(blocks[i]) }

  /** The octets of a transfer. */
  function Joined(blocks: seq<Event>): seq<byte>
    requires AllArrive(blocks)
  {
    if blocks == [] then [] else blocks[0].data + Joined(blocks[1..])
  }

  lemma {:induction false} BlocksArrive(digest: FileDigest, file: Option<seq<byte>>, blocks: seq<Event>)
    requires AllArrive(blocks)
    ensures Run(digest, file, blocks) == if blocks == [] then file else Some(Contents(file) + Joined(blocks))
    decreases |blocks|
  {
    if blocks != [] {
      var next := Step(digest, file, blocks[0]);
      BlocksArrive(digest, next, blocks[1..]);
      assert next == Some(Contents(file) + blocks[0].data);
      assert Contents(next) + Joined(blocks[1..]) == Contents(file) + (blocks[0].data + Joined(blocks[1..]));
      if blocks[1..] == [] { assert Joined(blocks) == blocks[0].data; }
    }
  }

  /**
   Whatever was there before, a transfer whose blocks are all written at some try leaves exactly the file that the
   server sent, which is installed when its hash is the announced one, and else deleted.
   */
  lemma TransferIsExact(digest: FileDigest, file: Option<seq<byte>>, before: seq<Event>, blocks: seq<Event>,
                        sent: seq<byte>, end: Event)
    requires AllArrive(blocks) && Joined(blocks) == sent != [] && end.End?
    ensures var received := Run(digest, file, before + [Begin] + blocks);
      && received == Some(sent)
      && (Installs(digest, received, end) <==> digest(sent, end.scratch) == Some(end.announced))
      && Run(digest, file, before + [Begin] + blocks + [end]) ==
         if digest(sent, end.scratch) == Some(end.announced) then Some(sent) else None
  {
    RunSplits(digest, file, before + [Begin], blocks);
    RunSplits(digest, file, before, [Begin]);
    assert [Begin][1..] == [] && Run(digest, Run(digest, file, before), [Begin]) == None;
    BlocksArrive(digest, None, blocks);
    assert blocks != [] && Contents(None) + Joined(blocks) == Joined(blocks);
    RunSplits(digest, file, before + [Begin] + blocks, [end]);
    assert [end][1..] == [] && Run(digest, Some(sent), [end]) == Step(digest, Some(sent), end);
  }

  /** A file is the executable that the octets `subject` are hashed of, whatever settings the server put into it. */
  ghost predicate Stands(sent: seq<byte>, win32: bool, subject: seq<byte>) {
    forall scratch: seq<byte> :: |scratch| >= 24 ==> FileHash.Digested(sent, win32, scratch) == Some(subject)
  }

  /** So a file that stands for its executable is installed exactly when the hash of that is announced. */
  lemma InstalledIff(hash: seq<byte> -> seq<byte>, win32: bool, file: Option<seq<byte>>, before: seq<Event>,
                     blocks: seq<Event>, sent: seq<byte>, subject: seq<byte>, end: Event)
    requires AllArrive(blocks) && Joined(blocks) == sent != [] && end.End? && |end.scratch| >= 24
    requires Stands(sent, win32, subject)
    ensures Run(AgentDigest(hash, win32), file, before + [Begin] + blocks + [end]) ==
            if hash(subject) == end.announced then Some(sent) else None
  {
    TransferIsExact(AgentDigest(hash, win32), file, before, blocks, sent, end);
    assert FileHash.Digested(sent, win32, end.scratch) == Some(subject);
  }

  /** The octets hashed of an unsigned executable. */
  function Subject(base: seq<byte>, win32: bool): seq<byte>
    requires win32 ==> FileHash.Intact(base)
  {
    FileHash.Mask(base, FileHash.LayoutOf(base, win32))
  }

  /** With settings appended, an executable stands for itself. */
  lemma EmbeddedStands(base: seq<byte>, m: seq<byte>, win32: bool)
    requires base != [] && |base| + |m| + FileHash.TRAILER < FileHash.WORD && FileHash.Unsigned(base, win32)
    ensures Stands(FileHash.Embed(base, m), win32, Subject(base, win32))
  {
    forall scratch: seq<byte> | |scratch| >= 24
      ensures FileHash.Digested(FileHash.Embed(base, m), win32, scratch) == Some(Subject(base, win32))
    {
      FileHash.DigestedOfEmbed(base, m, win32, scratch);
    }
  }

  /** And so does one without a trailer. */
  lemma BareStands(base: seq<byte>, win32: bool)
    requires 16 <= |base| < FileHash.WORD && !FileHash.HasTrailer(base) && FileHash.Unsigned(base, win32)
    ensures Stands(base, win32, Subject(base, win32))
  {
    forall scratch: seq<byte> | |scratch| >= 24
      ensures FileHash.Digested(base, win32, scratch) == Some(Subject(base, win32))
    {
      FileHash.NoTrailerNoCut(base, win32, scratch);
    }
  }

  /** A signed executable stands for what comes before its signature, with settings in the signature or without. */
  lemma SignedStands(base: seq<byte>, size: seq<byte>, inner: seq<byte>, padding: seq<byte>, m: seq<byte>)
    requires |base| + |padding| + |m| + FileHash.TRAILER < FileHash.WORD && |size| == 4 && |inner| == 4
    requires FileHash.Signed(base)
    ensures var p := FileHash.ParseWhole(base);
      && p.directory + 8 <= p.signature && p.signature + 4 <= |base|
      && var subject := FileHash.Mask(base, p)[..p.signature];
        Stands(base, true, subject)
        && Stands(FileHash.EmbedSigned(base, p.directory, p.signature, size, inner, padding, m), true, subject)
  {
    var p := FileHash.ParseWhole(base);
    FileHash.EntryBeforeSignature(base);
    var file := FileHash.EmbedSigned(base, p.directory, p.signature, size, inner, padding, m);
    var subject := FileHash.Mask(base, p)[..p.signature];
    forall scratch: seq<byte> | |scratch| >= 24
      ensures FileHash.Digested(base, true, scratch) == Some(subject) == FileHash.Digested(file, true, scratch)
    {
      FileHash.DigestedOfSigned(base, scratch);
      FileHash.SignedEmbeddingIsInvisible(base, size, inner, padding, m, scratch);
    }
  }

  /** Where the agent does not look for headers, what is hashed is the executable as it is. */
  lemma PlainSubject(base: seq<byte>)
    ensures Subject(base, false) == base
  {
    assert FileHash.Mask(base, FileHash.Plain) == base;
  }
}
