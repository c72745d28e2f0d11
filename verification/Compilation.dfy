/**
From a program to a kernel: the scanner's registry decides what is loaded and written back, the
generator builds the code, and the code means what the program means.
*/
module Compilation {
  import opened Types
  import opened Ast
  import opened Overloads
  import opened Semantics
  import opened Cfg
  import opened Lowering
  import opened Frames
  import opened Writes
  import opened Occurrences
  import Catalogue
  import opened TreeFlags
  import opened AttributeRegistries
  import opened Kernels
  import P = PointKernel
  import V = VolumeKernel
  import opened RangeKernel
  import opened RangeGenerator
  import opened PointGenerator
  import opened VolumeGenerator

  /** The registry as the generators use it. */
  function RegistryOf(accesses: seq<AccessData>): (reg: Registry)
    ensures |reg| == |accesses|
    ensures forall i | 0 <= i < |reg| :: reg[i] == Access(accesses[i].key, accesses[i].isRead, accesses[i].isWritten)
  {
    seq(|accesses|, i requires 0 <= i < |accesses| =>
      Access(accesses[i].key, accesses[i].isRead, accesses[i].isWritten))
  }

  /** What the scanner finds out about a program covers what the program does. */
  lemma RegistryCovers(root: Stmts, accesses: seq<AccessData>)
    requires Describes(TreeOf(root), accesses) && forall i | 0 <= i < |accesses| :: accesses[i].isRead
    ensures P.Covers(RegistryOf(accesses), root)
  {
    hide Catalogue.TokenRead, Catalogue.TokenWritten, WrittenByAll, TreeOf;
    var reg := RegistryOf(accesses);
    forall i, j | 0 <= i < j < |reg| ensures reg[i].key != reg[j].key {
      assert Keys(accesses)[i] != Keys(accesses)[j];
    }
    forall i | 0 <= i < |reg| && reg[i].key in WrittenByAll(root) ensures reg[i].isWritten {
      ProgramFlags(root, accesses[i].key);
    }
  }

  /** Compile a program for points: the registry, the range function and the kernel it calls. */
  method CompilePoints(functions: Functions, root: Stmts)
    returns (registry: AttributeRegistry, range: RangeBlocks, kernel: Option<seq<BasicBlock>>)
    ensures Describes(TreeOf(root), registry.accesses) && Converse(registry.accesses)
    ensures P.Covers(RegistryOf(registry.accesses), root)
    ensures range == RangeCode()
    ensures kernel == P.Kernel(functions, root, RegistryOf(registry.accesses))
  {
    hide Catalogue.TokenRead, Catalogue.TokenWritten, P.Kernel, RangeCode;
    range := GenerateRange();
    registry := new AttributeRegistry.Create(TreeOf(root));
    RegistryCovers(root, registry.accesses);
    var generator := new PointComputeGenerator(functions);
    kernel := generator.Generate(root, RegistryOf(registry.accesses));
  }

  /** Compile a program for volumes. */
  method CompileVolumes(functions: Functions, root: Stmts)
    returns (registry: AttributeRegistry, kernel: Option<seq<BasicBlock>>)
    ensures Describes(TreeOf(root), registry.accesses) && Converse(registry.accesses)
    ensures P.Covers(RegistryOf(registry.accesses), root)
    ensures kernel == V.Kernel(functions, root, RegistryOf(registry.accesses))
  {
    hide Catalogue.TokenRead, Catalogue.TokenWritten, V.Kernel;
    registry := new AttributeRegistry.Create(TreeOf(root));
    RegistryCovers(root, registry.accesses);
    var generator := new VolumeComputeGenerator(functions);
    kernel := generator.Generate(root, RegistryOf(registry.accesses));
  }

  /** End to end for points: a program is accepted exactly when it is well typed and well scoped, and its
      range kernel applies it once to each point, in order. */
  lemma PointsEndToEnd(cx: Context, root: Stmts, reg: Registry, code: seq<BasicBlock>, args: Arguments,
                       before: Leaf, after: Leaf)
    requires P.Covers(reg, root)
    requires P.Kernel(cx.functions, root, reg).Some? ==> P.Kernel(cx.functions, root, reg) == Some(code)
    requires 1 <= |before.points| < WORD && AllProvide(before.points, reg)
    ensures P.Kernel(cx.functions, root, reg).Some? <==> CheckStmt(cx.functions, Block(root), AttributeEnv(reg), false)
    ensures P.Kernel(cx.functions, root, reg).Some? ==>
              (RangeReturns(Machine(cx, code, args), RangeCode(), |before.points|, before, after) <==>
               AppliedToAll(cx, root, reg, 0, before, after))
  {
    hide P.Finish, LowerTree, RangeRuns, RangeReturns, RangeCode, AppliedToAll, P.Covers, AllProvide;
    GenerationSucceeds(cx.functions, root, AttributeEnv(reg), KernelStart(reg));
    var t := Body(cx.functions, root, reg);
    if t.Some? {
      var m, k := Machine(cx, t.value.blocks, args), Machine(cx, code, args);
      P.KernelIsRewritten(m, k, root, reg);
      RangeKernelCorrect(m, k, root, reg, before, after);
      EmittedIsLoop(k, |before.points|, before, after);
    }
  }

  /** One call of the point kernel, cell by cell: it ends when the program does, and leaves in every attribute, each
      as long as its type says, the cells of its slot. */
  lemma PointByCell(cx: Context, root: Stmts, reg: Registry, code: seq<BasicBlock>, args: Arguments,
                    attrs: Attributes, ext: int, attrs1: Attributes, ext1: int)
    requires P.Covers(reg, root) && P.Kernel(cx.functions, root, reg) == Some(code) && Provides(attrs, reg)
    ensures P.PointRuns(Machine(cx, code, args), attrs, ext, attrs1, ext1) <==>
              exists final: State :: P.PointEnds(cx, root, reg, attrs, ext, final) && ext1 == final.ext &&
                                     AreStored(reg, final.mem, attrs, attrs1)
  {
    hide P.Finish, LowerTree, P.PointRuns, P.PointEnds, P.Covers, Provides, Stored, AreStored;
    var m := Machine(cx, Body(cx.functions, root, reg).value.blocks, args);
    P.KernelIsRewritten(m, Machine(cx, code, args), root, reg);
    P.PointKernelCorrect(m, Machine(cx, code, args), root, reg, attrs, ext, attrs1, ext1);
    CoversDistinct(reg, root);
    forall final: State ensures AreStored(reg, final.mem, attrs, attrs1) <==> attrs1 == Stored(reg, final.mem, attrs) {
      AttributesStored(reg, final.mem, attrs);
      if AreStored(reg, final.mem, attrs, attrs1) { StoredOnly(reg, final.mem, attrs, attrs1); }
    }
  }

  /**
  End to end for volumes: called for the grid of attribute i, the kernel ends exactly when the program
  does, sets one voxel at most, and that voxel then has the value the program leaves in the attribute.
  */
  lemma VolumesEndToEnd(cx: Context, root: Stmts, reg: Registry, code: seq<BasicBlock>, args: Arguments,
                        attrs: Attributes, ext: int, ext1: int, i: nat, value: seq<int>)
    requires P.Covers(reg, root) && V.Kernel(cx.functions, root, reg) == Some(code)
    requires Provides(attrs, reg) && V.OwnIndices(args, reg) && V.BoolTest(cx.ops)
    requires i < |reg| && V.Selects(args, reg[i].key)
    ensures (exists voxels :: V.VolumeRuns(Machine(cx, code, args), attrs, ext, voxels, ext1) &&
                              |voxels| <= 1 && V.SetTo(voxels, attrs[reg[i].key]) == value) <==>
            (exists final: State :: P.PointEnds(cx, root, reg, attrs, ext, final) && ext1 == final.ext &&
                                    IsCells(value, reg[i].key, final.mem, i))
  {
    assert reg[i].key in attrs && reg[i].key.Token?;
    forall final: State
      ensures value == Cells(final.mem, i, SizeOf(reg[i].key)) <==> IsCells(value, reg[i].key, final.mem, i)
    {
      CellsAre(value, reg[i].key, final.mem, i);
    }
    hide V.Returns, LowerTree, V.VolumeRuns, P.PointEnds, V.Voxels, V.OwnIndices, V.BoolTest, V.SetTo, Provides,
      P.Covers, Cells, IsCells;
    var body := Body(cx.functions, root, reg).value.blocks;
    var m, k := Machine(cx, body, args), Machine(cx, code, args);
    V.VolumeIsRewritten(m, k, root, reg);
    assert Distinct(reg) by { CoversDistinct(reg, root); }
    forall final: State | P.PointEnds(cx, root, reg, attrs, ext, final)
      ensures var voxels := V.Voxels(body, reg, |reg|, args, final.mem);
              V.VolumeRuns(k, attrs, ext, voxels, final.ext) && |voxels| <= 1 &&
              V.SetTo(voxels, attrs[reg[i].key]) == Cells(final.mem, i, SizeOf(reg[i].key))
    {
      V.VolumeKernelCorrect(m, k, root, reg, attrs, ext, V.Voxels(body, reg, |reg|, args, final.mem), final.ext);
      V.VoxelIsFinalValue(m, k, root, reg, attrs, ext, final, i);
    }
    forall voxels | V.VolumeRuns(k, attrs, ext, voxels, ext1)
      ensures exists final: State :: P.PointEnds(cx, root, reg, attrs, ext, final) && ext1 == final.ext &&
                voxels == V.Voxels(body, reg, |reg|, args, final.mem)
    {
      V.VolumeKernelCorrect(m, k, root, reg, attrs, ext, voxels, ext1);
    }
  }

  lemma CoversDistinct(reg: Registry, root: Stmts)
    requires P.Covers(reg, root)
    ensures Distinct(reg)
  {
  }
}
