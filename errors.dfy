/** Diagnostics and the ordered bag that collects them (src/errors.rs). */
module Errors {
  import opened SourceMap

  /** The diagnostic kinds. There is exactly one. */
  datatype Diag = UnknownCharacter(pos: BytePos)

  /** An ordered, append-only collection of diagnostics. */
  class DiagBag {
    var diags: seq<Diag>

    /** `DiagBag::new`: no diagnostics yet. */
    constructor ()
      ensures diags == []
    {
      diags := [];
    }

    /** `push`: `diag` goes to the end; what was there stays, in order. */
    method Push(diag: Diag)
      modifies this
      ensures diags == old(diags) + [diag]
      ensures |diags| == |old(diags)| + 1 && diags[..|old(diags)|] == old(diags)
    {
      diags := diags + [diag];
    }

    /** `extend`: the other bag's diagnostics follow this bag's, both in
        their original order. Rust moves `diagBag` into the call, so it is
        never this bag; the postcondition holds either way. */
    method Extend(diagBag: DiagBag)
      modifies this
      ensures diags == old(diags) + old(diagBag.diags)
      ensures old(diagBag.diags) == [] ==> diags == old(diags)
    {
      diags := diags + diagBag.diags;
    }
  }

  /** The scenario of `push_to_diag_bag_adds_a_diag_to_the_end_of_diags`. */
  method PushAddsToTheEnd() {
    var bag := new DiagBag();
    assert bag.diags == [];
    var diag1 := UnknownCharacter(BytePos(0));
    var diag2 := UnknownCharacter(BytePos(1));
    bag.Push(diag1);
    bag.Push(diag2);
    assert bag.diags == [diag1, diag2];
  }

  /** The scenario of `extending_from_diag_bag`. */
  method ExtendKeepsOrder() {
    var diag1 := UnknownCharacter(BytePos(0));
    var diag2 := UnknownCharacter(BytePos(1));
    var diag3 := UnknownCharacter(BytePos(2));
    var diag4 := UnknownCharacter(BytePos(3));
    var bag1 := new DiagBag();
    bag1.Push(diag1);
    bag1.Push(diag2);
    var bag2 := new DiagBag();
    bag2.Push(diag3);
    bag2.Push(diag4);
    bag1.Extend(bag2);
    assert bag1.diags == [diag1, diag2, diag3, diag4];
  }
}
