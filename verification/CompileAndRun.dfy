/** From the text of a program to a process that is ready to run it. */
module CompileAndRun {
  import opened Words
  import opened ErrorCodes
  import L = BarrelLexer
  import opened Codegen
  import opened ProgramCorrectness
  import D = CompilerSpec
  import opened Compiler
  import opened Elf
  import opened Frames
  import opened PageTables
  import PageMapping
  import opened Regions
  import opened Layers
  import opened Loader

  /** `compile_and_run` up to the start of the process: a process exactly for accepted sources for which
      there are a slot and enough frames, and it sees the compiled file. */
  method CompileAndLoad(source: L.Source, buf: array<byte>, mm: MemoryManager, slot: Option<nat>, src: nat, dst: nat,
                        ghost tables: set<nat>)
    returns (v: Verdict, r: int, entry: nat, stackTop: nat)
    requires buf.Length == ELF_BUF_SIZE && mm.Valid() && (slot.Some? ==> slot.value < mm.pcbs.Length)
    requires PageMapping.Safe(mm.pool, src, tables) && NoTables(mm.tracked, tables)
    requires WritableLayer(mm.pool.mem, src, LOAD_VADDR, TOP)
    requires HasFrame(mm.pool.mem, dst) && dst !in tables && !mm.pool.InPool(dst) && Addr(dst) == dst
    modifies buf, mm`tracked, mm.pool, mm.pcbs
    ensures mm.Valid() && (v.Compiled? <==> exists b :: Accepted(source, b)) && (v.Hangs? <==> Unmatched(source))
    ensures r >= 0 <==>
      && v.Compiled? && slot.Some? && ClearRange(old(mm.pool.mem), src, LOAD_VADDR, TOP)
      && FramesNeeded(old(mm.pool.mem), src, LOAD_VADDR, TOP) <= old(mm.pool.Available())
    ensures v.Compiled? && r < 0 ==> r == if slot.None? then ERR_NO_CAPACITY else ERR_OUT_OF_MEMORY
    ensures forall b :: Accepted(source, b) && r >= 0 ==>
      && Declares(D.DeclareB([], b), NamesB(b)) && CODE_OFF + |Image(b, D.DeclareB([], b))| <= PAGE
      && slot == Some(r) && entry == LOAD_VADDR + CODE_OFF && stackTop == TOP
      && Ready(mm.pool.mem, dst, FileOf(Image(b, D.DeclareB([], b))))
  {
    hide Accepted, Unmatched, Image, D.DeclareB, NamesB, FileHeader, SegmentHeader, MemoryManager.Valid;
    hide FramePool.Available, WritableLayer;
    hide ClearRange, FramesNeeded, Ready, PageMapping.Safe, Untracked, NoTables, BarrelFile;
    r, entry, stackTop := -1, 0, 0;
    v := Compile(source, buf);
    if !v.Compiled? { return; }
    var total := CODE_OFF + v.len;
    ghost var code := buf[CODE_OFF..total];
    WriteElfHeaders(buf, total);
    assert buf[CODE_OFF..total] == buf[CODE_OFF..][..v.len] == code;
    assert buf[..total] == buf[..CODE_OFF] + buf[CODE_OFF..total] == FileOf(code);
    FileIsBarrel(code);
    ghost var region;
    r, entry, stackTop, region := Exec(mm, buf[..total], slot, src, dst, tables);
  }
}
