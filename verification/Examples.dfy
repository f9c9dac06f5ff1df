/** Concrete inputs on which the code does not do what one would expect of it, or does it against the odds. */
module Examples {
  import opened Admin
  import opened Assembly
  import opened Basics
  import opened BufferedReads
  import opened ChunkFiles
  import opened Entries
  import opened FileReader
  import opened Finder
  import opened OutputFile
  import opened Protocol
  import opened ProtocolInvariant
  import opened ProtocolResults
  import opened ProtocolSuccess
  import opened PublishedDownload
  import opened RangeHeader
  import opened Serving
  import opened Text
  import opened Urls
  import opened Validation

  /** A hash without any collision: the bytes themselves, as characters. */
  function Spell(data: Bytes): string {
    seq(|data|, i requires 0 <= i < |data| => data[i] as char)
  }

  lemma SpellInjective(d: Bytes, e: Bytes)
    requires Spell(d) == Spell(e)
    ensures d == e
  {
    assert |d| == |Spell(d)| == |Spell(e)| == |e|;
    forall i | 0 <= i < |d|
      ensures d[i] == e[i]
    {
      assert Spell(d)[i] == Spell(e)[i];
    }
  }

  /** A file of two bytes, published in chunks of two, makes the validator panic on the very same file. */
  lemma ExactMultiplePanics()
    ensures var p: Bytes := [7, 8];
            var cf := ChunkFile(2, 2, [Spell(p)]);
            && Published(Spell, cf, p)
            && ValidateFile(Spell, map["/d/f" := p], "/d", ChunkFileMeta(FileMetaInfo("f", "Qm"), cf)) == Panic
  {
    var p: Bytes := [7, 8];
    var cf := ChunkFile(2, 2, [Spell(p)]);
    assert ChunkCount(2, 2) == 1;
    assert Chunk(p, 2, 0) == p;
    assert PathPush("/d", "f") == "/d/f";
    UnservablePanics(Spell, map["/d/f" := p], "/d", ChunkFileMeta(FileMetaInfo("f", "Qm"), cf), p);
  }

  lemma NextDigit(n: nat, d: nat, text: string, c: char)
    requires 0 < n && d < 10 && Print(n) == text && c as int == '0' as int + d
    ensures Print(10 * n + d) == text + [c]
  {
  }

  lemma Digits()
    ensures Print(0) == "0" && Print(3) == "3" && Print(42) == "42" && Print(57) == "57" && Print(68) == "68"
    ensures Print(190) == "190"
  {
    NextDigit(4, 2, "4", '2');
    NextDigit(5, 7, "5", '7');
    NextDigit(6, 8, "6", '8');
    NextDigit(1, 9, "1", '9');
    NextDigit(19, 0, "19", '0');
  }

  /** The texts of the protocol, spelled out. */
  lemma Texts()
    ensures RangeText(0, 42) == "bytes=0-42" && RangeText(190, 190) == "bytes=190-190"
    ensures ContentRangeText(3, 57, 68) == "bytes 3-57/68"
    ensures QueryEndpoint("http://a", "Qm") == "http://a/subfiles/id/Qm"
  {
    Digits();
  }

  lemma Paths()
    ensures PathPush("/d", "f") == "/d/f" && PathPush("/d/", "f") == "/d/f" && PathPush("/d", "/f") == "/f"
    ensures FormatPath("/d", "f") == "/d/f" && FormatPath("/d/", "f") == "/d/f" && FormatPath("", "f") == "/f"
  {
    assert "/d"[1] == 'd' && "/d/"[2] == '/';
  }

  /** What a buffer of four bytes hands out of five, in chunks of three. */
  lemma BufferedExample()
    ensures BufferedParts([1, 2, 3, 4, 5], 4, 3) == [[1, 2, 3], [4], [5]]
  {
    var p: Bytes := [1, 2, 3, 4, 5];
    assert p[0..3] == [1, 2, 3] && p[3..4] == [4] && p[4..5] == [5];
    assert ReadsFrom(p, 4, 3, 4, 4) == [p[4..5]] + ReadsFrom(p, 4, 3, 5, 5);
    assert ReadsFrom(p, 4, 3, 3, 4) == [p[3..4]] + ReadsFrom(p, 4, 3, 4, 4);
    assert ReadsFrom(p, 4, 3, 0, 0) == [p[0..3]] + ReadsFrom(p, 4, 3, 3, 4);
  }

  lemma SpellPartsCollisionFree(parts: seq<Bytes>)
    ensures PartsCollisionFree(Spell, parts)
  {
    forall i: nat, d: Bytes | i < |parts| && Spell(d) == Spell(parts[i])
      ensures d == parts[i]
    {
      SpellInjective(d, parts[i]);
    }
  }

  /** A file of 8193 bytes published in chunks of 3000, through the buffer of the publisher's reader, does not
      validate on the very same file. */
  lemma BufferedPublishFails(p: FileBytes)
    requires |p| == 8193
    ensures !ValidateFile(Spell, map["/d/f" := p], "/d",
                          ChunkFileMeta(FileMetaInfo("f", "Qm"),
                                        ChunkFile(8193, 3000, HashAll(Spell, BufferedParts(p, DEFAULT_CAPACITY, 3000))))).Ok?
  {
    var parts := BufferedParts(p, DEFAULT_CAPACITY, 3000);
    var meta := ChunkFileMeta(FileMetaInfo("f", "Qm"), ChunkFile(8193, 3000, HashAll(Spell, parts)));
    assert PathPush("/d", "f") == "/d/f";
    SpellPartsCollisionFree(parts);
    BufferedPublishThenValidateIff(Spell, map["/d/f" := p], "/d", meta, DEFAULT_CAPACITY);
  }

  // ----- a file that is published in chunks of 5000 -----

  const SIZE: nat := 5000

  function Parts(p: Bytes): seq<Bytes> {
    BufferedParts(p, DEFAULT_CAPACITY, SIZE)
  }

  function OneFile(p: FileBytes): Config {
    Config("Qm", [ChunkFileMeta(FileMetaInfo("a", "Qm1"), ChunkFile(|p|, SIZE, HashAll(Spell, Parts(p))))],
           [IndexerEndpoint("o", "u")], 1, Spell)
  }

  lemma OneFileGood(p: FileBytes)
    ensures GoodConfig(OneFile(p), [Parts(p)]) && Flatten(Parts(p)) == p
  {
    BufferedChunksIff(p, DEFAULT_CAPACITY, SIZE);
    FlattenLength(Parts(p));
    SpellPartsCollisionFree(Parts(p));
  }

  lemma ShortFileParts(p: Bytes)
    requires |p| == 8193
    ensures Parts(p) == [p[..5000], p[5000..8192], p[8192..]]
  {
    assert p[..5000] == p[0..5000] && p[8192..] == p[8192..8193];
    assert ReadsFrom(p, 8192, 5000, 8192, 8192) == [p[8192..8193]] + ReadsFrom(p, 8192, 5000, 8193, 8193);
    assert ReadsFrom(p, 8192, 5000, 5000, 8192) == [p[5000..8192]] + ReadsFrom(p, 8192, 5000, 8192, 8192);
    assert ReadsFrom(p, 8192, 5000, 0, 0) == [p[0..5000]] + ReadsFrom(p, 8192, 5000, 5000, 8192);
  }

  lemma ShortFileWhole(p: Bytes)
    requires |p| == 8193
    ensures |Parts(p)| == 3 && Assembled(Parts(p), SIZE, 2) == p[..8192]
  {
    ShortFileParts(p);
    assert Assembled(Parts(p), SIZE, 0) == [];
    assert Assembled(Parts(p), SIZE, 1) == p[..5000];
    assert Assembled(Parts(p), SIZE, 2) == WriteAt(p[..5000], 5000, p[5000..8192]);
    assert p[..8192] == p[..5000] + p[5000..8192];
  }

  /** A file of 8193 bytes published in chunks of 5000 can be downloaded with success, and every successful
      download leaves its first 8192 bytes: each part has its recorded hash, and nobody counts the bytes. */
  lemma LastByteIsLost(p: FileBytes, s0: State)
    requires |p| == 8193 && Init(OneFile(p), s0)
    ensures exists es, s :: Exec(OneFile(p), s0, es) == Some(s) && s.main == Finished(true)
    ensures forall es, s :: Exec(OneFile(p), s0, es) == Some(s) && s.main == Finished(true) ==>
              "a" in s.files && s.files["a"] == p[..8192]
  {
    var c, parts := OneFile(p), [Parts(p)];
    OneFileGood(p);
    ShortFileWhole(p);
    assert LastIndex(Cf(c, 0)) == 1;
    SuccessPossibleIff(c, parts, s0);
    assert Name(c, 0) == "a" && LastWriter(c, 0) == 0;
    EntryAlwaysLeaves(c, parts, s0, 0);
  }

  lemma ZeroFileParts(p: Bytes)
    requires |p| == 18192
    ensures Parts(p) == [p[..5000], p[5000..8192], p[8192..13192], p[13192..16384], p[16384..]]
  {
    assert p[..5000] == p[0..5000] && p[16384..] == p[16384..18192];
    assert ReadsFrom(p, 8192, 5000, 16384, 16384) == [p[16384..18192]] + ReadsFrom(p, 8192, 5000, 18192, 18192);
    assert ReadsFrom(p, 8192, 5000, 13192, 16384) == [p[13192..16384]] + ReadsFrom(p, 8192, 5000, 16384, 16384);
    assert ReadsFrom(p, 8192, 5000, 8192, 8192) == [p[8192..13192]] + ReadsFrom(p, 8192, 5000, 13192, 16384);
    assert ReadsFrom(p, 8192, 5000, 5000, 8192) == [p[5000..8192]] + ReadsFrom(p, 8192, 5000, 8192, 8192);
    assert ReadsFrom(p, 8192, 5000, 0, 0) == [p[0..5000]] + ReadsFrom(p, 8192, 5000, 5000, 8192);
  }

  lemma ZerosReassemble(cf: ChunkFile, p: Bytes)
    requires p == Zeros(18192) && cf.totalBytes == 18192 && cf.chunkSize == SIZE
    ensures Reassembles(cf, Parts(p), p)
  {
    ZeroFileParts(p);
    assert LastIndex(cf) == 3;
    assert Padded(p[..5000], Chunk(p, SIZE, 0));
    assert Padded(p[5000..8192], Chunk(p, SIZE, 1));
    assert Padded(p[8192..13192], Chunk(p, SIZE, 2));
    assert p[13192..16384] == Chunk(p, SIZE, 3);
  }

  /** That a buffer does not fit is not always a loss: 18192 zeros published in chunks of 5000 are not cut into
      whole chunks, and come back all the same. */
  lemma ZerosComeBack(s0: State)
    requires Init(OneFile(Zeros(18192)), s0)
    ensures !BufferFits(DEFAULT_CAPACITY, SIZE, 18192)
    ensures AlwaysLeaves(OneFile(Zeros(18192)), s0, "a", Zeros(18192))
    ensures exists es, s :: Exec(OneFile(Zeros(18192)), s0, es) == Some(s) && s.main == Finished(true)
  {
    var p: FileBytes := Zeros(18192);
    var c := OneFile(p);
    OneFileGood(p);
    ZerosReassemble(Cf(c, 0), p);
    assert Name(c, 0) == "a" && LastWriter(c, 0) == 0;
    SuccessPossibleIff(c, [Parts(p)], s0);
    CutDownloadIff(c, [Parts(p)], s0, 0);
  }

  /** A text of the form of an IPFS hash. */
  function Id(): (id: string)
    ensures ValidIpfsHash(id) && ':' !in id
  {
    var id := "Qm" + seq(44, i => '1');
    assert id[..2] == "Qm";
    id
  }

  /** A server with nothing on its disk, and a subfile of one file. */
  function EmptyDisk(): Site {
    Site(Network(map[], map[], map[Id() := [FileMetaInfo("f", "Qm1")]], map["Qm1" := ChunkFile(1, 2, ["x"])]),
         map[], {"/d"}, Spell)
  }

  lemma OneEntry()
    ensures ValidateEntries([Id() + ":" + "/d"], {"/d"}) == Ok([(Id(), "/d")])
  {
    var entries := [Id() + ":" + "/d"];
    assert "/d"[0] == '/' && "/d"[1] == 'd';
    ValidateEntryIff(entries[0], {"/d"}, Id(), "/d");
    assert ValidateEntry(entries[0], {"/d"}) == Ok((Id(), "/d"));
    assert ValidateEntries(entries, {"/d"}).Ok?;
    assert ValidateEntries(entries, {"/d"}).value == [(Id(), "/d")];
  }

  lemma OneFileSubfile()
    ensures ReadSubfile(EmptyDisk().net, Id(), "/d")
         == Ok(Subfile(Id(), "/d", [ChunkFileMeta(FileMetaInfo("f", "Qm1"), ChunkFile(1, 2, ["x"]))]))
  {
    var net, files := EmptyDisk().net, [FileMetaInfo("f", "Qm1")];
    assert net.manifests[Id()] == files && net.chunkFiles["Qm1"] == ChunkFile(1, 2, ["x"]);
    var read := ReadChunkFiles(net, files);
    assert read.Ok?;
    assert read.value == [ChunkFileMeta(files[0], net.chunkFiles["Qm1"])];
  }

  lemma NothingToValidate()
    ensures ValidateSubfile(Spell, map[], Subfile(Id(), "/d", [ChunkFileMeta(FileMetaInfo("f", "Qm1"), ChunkFile(1, 2, ["x"]))]))
         == Err(FileIOError)
  {
    var meta := ChunkFileMeta(FileMetaInfo("f", "Qm1"), ChunkFile(1, 2, ["x"]));
    assert ChunkRange(meta.chunkFile, 0) == Ok((0, 0));
    assert CheckChunk(Spell, map[], PathPush("/d", "f"), meta.chunkFile, 0) == Err(FileIOError);
    assert ValidateFile(Spell, map[], "/d", meta) == Err(FileIOError);
  }

  /** Start-up serves a subfile of which it has no file at all. */
  lemma UnverifiedIsServed()
    ensures StartUp(EmptyDisk(), [Id() + ":" + "/d"]).Ok?
    ensures Id() in StartUp(EmptyDisk(), [Id() + ":" + "/d"]).value
    ensures ValidateSubfile(Spell, map[], StartUp(EmptyDisk(), [Id() + ":" + "/d"]).value[Id()]) == Err(FileIOError)
  {
    OneEntry();
    OneFileSubfile();
    NothingToValidate();
    var entries := [(Id(), "/d")];
    assert entries[..0] == [];
    assert Started(EmptyDisk(), entries[..0]) == Ok(map[]);
  }

  /** One byte, published once and listed under two names. */
  function TwoNames(): Config {
    var cf := ChunkFile(1, 2, [Spell([7])]);
    Config("Qm", [ChunkFileMeta(FileMetaInfo("a", "Qm1"), cf), ChunkFileMeta(FileMetaInfo("b", "Qm1"), cf)],
           [IndexerEndpoint("o", "u")], 1, Spell)
  }

  lemma OneByteRecorded()
    ensures Recorded(Spell, ChunkFile(1, 2, [Spell([7])]), [[7]]) && Askable(ChunkFile(1, 2, [Spell([7])]))
  {
    var q: seq<Bytes> := [[7]];
    assert q[..0] == [] && TotalLength(q) == 1;
    assert [Spell([7])] == HashAll(Spell, q);
  }

  lemma TwoNamesGood()
    ensures GoodConfig(TwoNames(), [[[7]], [[7]]]) && AllAskable(TwoNames())
    ensures !FirstOfHash(TwoNames(), 1)
  {
    var c := TwoNames();
    var cf, q: seq<Bytes> := ChunkFile(1, 2, [Spell([7])]), [[7]];
    OneByteRecorded();
    SpellPartsCollisionFree(q);
    forall k | 0 <= k < 2
      ensures c.entries[k].chunkFile == cf && [q, q][k] == q
    {
    }
    assert HashOf(c, 0) == HashOf(c, 1);
  }

  /** A manifest that lists one file under two names can be downloaded with success, and every successful
      download leaves the second file empty: its indices were used up by the first. */
  lemma TwoNamesLeaveOneEmpty(s0: State)
    requires Init(TwoNames(), s0)
    ensures exists es, s :: Exec(TwoNames(), s0, es) == Some(s) && s.main == Finished(true)
    ensures forall es, s :: Exec(TwoNames(), s0, es) == Some(s) && s.main == Finished(true) ==>
              "b" in s.files && s.files["b"] == []
  {
    var c, parts: seq<seq<Bytes>> := TwoNames(), [[[7]], [[7]]];
    TwoNamesGood();
    SuccessPossibleIff(c, parts, s0);
    forall es, s | Exec(c, s0, es) == Some(s) && s.main == Finished(true)
      ensures "b" in s.files && s.files["b"] == []
    {
      SuccessLeaves(c, parts, s0, es, s, 1);
      assert Name(c, 1) == "b" && LastWriter(c, 1) == 1;
      assert FirstWithHash(c, 1, 0) != 1;
    }
  }
}
