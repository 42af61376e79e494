/** BlitSizeAssigner: how a buffer is shared among one main and any number of link copy engines. */
module BlitSizeAssigner {
  import opened Basics
  import opened LinearIndex

  datatype Error = MultipleMainEngines | UnexpectedMainEngine | UnexpectedLinkEngine

  /** A piece of the buffer. */
  datatype Space = Space(offset: nat, size: nat)

  function ChunksCount(main: bool, links: nat): (n: nat)
    ensures n > 0
  {
    if links == 0 then 1 else links + (if main then 1 else 0) * links
  }

  function CopySize(bufferSize: nat, main: bool, links: nat, forMain: bool): nat {
    var chunk := bufferSize / ChunksCount(main, links);
    if forMain && links > 0 then chunk * links else chunk
  }

  class Assigner {
    const bufferSize: nat
    var linkCopyEnginesCount: nat
    var mainCopyEnginePresent: bool
    var offset: nat

    constructor (bufferSize: nat)
      ensures this.bufferSize == bufferSize && linkCopyEnginesCount == 0 && !mainCopyEnginePresent && offset == 0
    {
      this.bufferSize := bufferSize;
      linkCopyEnginesCount, mainCopyEnginePresent, offset := 0, false, 0;
    }

    method AddMainCopyEngine() returns (r: Result<(), Error>)
      modifies this`mainCopyEnginePresent
      ensures mainCopyEnginePresent
      ensures r == if old(mainCopyEnginePresent) then Fatal(MultipleMainEngines) else Ok(())
    {
      if mainCopyEnginePresent {
        return Fatal(MultipleMainEngines);
      }
      mainCopyEnginePresent := true;
      return Ok(());
    }

    method AddLinkCopyEngine()
      modifies this`linkCopyEnginesCount
      ensures linkCopyEnginesCount == old(linkCopyEnginesCount) + 1
    {
      linkCopyEnginesCount := linkCopyEnginesCount + 1;
    }

    method GetSpaceForBlit(isMain: bool) returns (r: Result<Space, Error>)
      modifies this`offset
      ensures r.Fatal? <==> if isMain then !mainCopyEnginePresent else linkCopyEnginesCount == 0
      ensures r.Fatal? ==> r.error == if isMain then UnexpectedMainEngine else UnexpectedLinkEngine
      ensures r.Fatal? ==> offset == old(offset)
      ensures r.Ok? ==>
                && r.value.offset == old(offset)
                && r.value.size == CopySize(bufferSize, mainCopyEnginePresent, linkCopyEnginesCount, isMain)
                        && offset == r.value.offset + r.value.size
    {
      if isMain && !mainCopyEnginePresent {
        return Fatal(UnexpectedMainEngine);
      }
      if !isMain && linkCopyEnginesCount == 0 {
        return Fatal(UnexpectedLinkEngine);
      }
      var size := CopySize(bufferSize, mainCopyEnginePresent, linkCopyEnginesCount, isMain);
      r := Ok(Space(offset, size));
      offset := offset + size;
    }

    /** Which of the two warnings are printed. */
    method Validate() returns (notDivisible: bool, outOfBounds: bool)
      ensures notDivisible == (offset < bufferSize) && outOfBounds == (offset > bufferSize)
    {
      notDivisible, outOfBounds := offset < bufferSize, offset > bufferSize;
    }

    /** One request per engine, in the given order. */
    method AssignAll(order: seq<bool>) returns (spaces: seq<Space>)
      requires offset == 0 && OnePerEngine(order, mainCopyEnginePresent, linkCopyEnginesCount)
      modifies this`offset
      ensures spaces == Spaces(bufferSize, mainCopyEnginePresent, linkCopyEnginesCount, order, |order|)
      ensures offset == Total(bufferSize, mainCopyEnginePresent, linkCopyEnginesCount, order, |order|)
    {
      spaces := [];
      var k := 0;
      while k < |order|
        invariant 0 <= k <= |order|
        invariant spaces == Spaces(bufferSize, mainCopyEnginePresent, linkCopyEnginesCount, order, k)
        invariant offset == Total(bufferSize, mainCopyEnginePresent, linkCopyEnginesCount, order, k)
      {
        EngineRegistered(order, k, mainCopyEnginePresent, linkCopyEnginesCount);
        var r := GetSpaceForBlit(order[k]);
        spaces := spaces + [r.value];
        k := k + 1;
      }
    }

    /** After one request per engine, in any order, validate warns about divisibility exactly when
        there is a remainder, and never about bounds. */
    method AssignAllAndValidate(order: seq<bool>) returns (spaces: seq<Space>, notDivisible: bool, outOfBounds: bool)
      requires offset == 0 && OnePerEngine(order, mainCopyEnginePresent, linkCopyEnginesCount)
      requires mainCopyEnginePresent || linkCopyEnginesCount > 0
      modifies this`offset
      ensures spaces == Spaces(bufferSize, mainCopyEnginePresent, linkCopyEnginesCount, order, |order|)
      ensures notDivisible <==> bufferSize % ChunksCount(mainCopyEnginePresent, linkCopyEnginesCount) != 0
      ensures !outOfBounds
    {
      hide Total, Spaces, ChunksCount;
      spaces := AssignAll(order);
      BlitTotal(bufferSize, mainCopyEnginePresent, linkCopyEnginesCount, order);
      notDivisible, outOfBounds := Validate();
    }
  }

  // ----- one request per engine in any order

  function Count(order: seq<bool>, which: bool): nat {
    multiset(order)[which]
  }

  /** `order` names the main engine (true) once if present and each link engine (false) once. */
  predicate OnePerEngine(order: seq<bool>, main: bool, links: nat) {
    Count(order, true) == (if main then 1 else 0) && Count(order, false) == links
  }

  lemma EngineRegistered(order: seq<bool>, k: nat, main: bool, links: nat)
    requires k < |order| && OnePerEngine(order, main, links)
    ensures order[k] ==> main
    ensures !order[k] ==> links > 0
  {
  }

  /** Bytes handed out by the first k requests. */
  function Total(bufferSize: nat, main: bool, links: nat, order: seq<bool>, k: nat): nat
    requires k <= |order|
  {
    if k == 0 then 0 else Total(bufferSize, main, links, order, k - 1) + CopySize(bufferSize, main, links, order[k - 1])
  }

  function Spaces(bufferSize: nat, main: bool, links: nat, order: seq<bool>, k: nat): (s: seq<Space>)
    requires k <= |order|
    ensures |s| == k
  {
    if k == 0 then [] else
      Spaces(bufferSize, main, links, order, k - 1)
      + [Space(Total(bufferSize, main, links, order, k - 1), CopySize(bufferSize, main, links, order[k - 1]))]
  }

  lemma {:induction false} SpacesAt(bufferSize: nat, main: bool, links: nat, order: seq<bool>, k: nat, i: nat)
    requires i < k <= |order|
    ensures Spaces(bufferSize, main, links, order, k)[i]
         == Space(Total(bufferSize, main, links, order, i), CopySize(bufferSize, main, links, order[i]))
  {
    if i < k - 1 {
      SpacesAt(bufferSize, main, links, order, k - 1, i);
    }
  }

  /** The total depends only on how many main and link requests were made. */
  lemma {:induction false} TotalByCounts(bufferSize: nat, main: bool, links: nat, order: seq<bool>, k: nat)
    requires k <= |order|
    ensures Total(bufferSize, main, links, order, k)
         == Count(order[..k], true) * CopySize(bufferSize, main, links, true)
            + Count(order[..k], false) * CopySize(bufferSize, main, links, false)
  {
    hide CopySize;
    if k == 0 {
      assert order[..0] == [];
    } else {
      TotalByCounts(bufferSize, main, links, order, k - 1);
      assert order[..k] == order[..k - 1] + [order[k - 1]];
      var a, b := CopySize(bufferSize, main, links, true), CopySize(bufferSize, main, links, false);
      var m, l := Count(order[..k - 1], true), Count(order[..k - 1], false);
      MulSucc(m, a);
      MulSucc(l, b);
    }
  }

  lemma {:induction false} TotalMonotone(bufferSize: nat, main: bool, links: nat, order: seq<bool>, i: nat, k: nat)
    requires i <= k <= |order|
    ensures Total(bufferSize, main, links, order, i) <= Total(bufferSize, main, links, order, k)
  {
    if i < k {
      TotalMonotone(bufferSize, main, links, order, i, k - 1);
    }
  }

  /** All shares together. */
  lemma {:induction false} Shares(bufferSize: nat, main: bool, links: nat)
    requires main || links > 0
    ensures (if main then CopySize(bufferSize, main, links, true) else 0)
            + links * CopySize(bufferSize, main, links, false)
         == bufferSize - bufferSize % ChunksCount(main, links)
  {
  }

  lemma {:induction false} WholeTotal(bufferSize: nat, main: bool, links: nat, order: seq<bool>)
    requires OnePerEngine(order, main, links) && (main || links > 0)
    ensures Total(bufferSize, main, links, order, |order|) == bufferSize - bufferSize % ChunksCount(main, links)
  {
    hide CopySize, ChunksCount, Total;
    TotalByCounts(bufferSize, main, links, order, |order|);
    assert order[..|order|] == order;
    Shares(bufferSize, main, links);
  }

  /** Each piece starts where the earlier ones end, and all end within the total. */
  lemma {:induction false} PieceBounds(bufferSize: nat, main: bool, links: nat, order: seq<bool>, i: nat)
    requires i < |order|
    ensures var s := Spaces(bufferSize, main, links, order, |order|);
            && s[i].offset == Total(bufferSize, main, links, order, i)
            && s[i].offset + s[i].size == Total(bufferSize, main, links, order, i + 1)
                                       <= Total(bufferSize, main, links, order, |order|)
  {
    hide CopySize;
    SpacesAt(bufferSize, main, links, order, |order|, i);
    TotalMonotone(bufferSize, main, links, order, i + 1, |order|);
  }

  /** For every order of one request per engine: the first piece starts at 0, every next one where its
      predecessor ends, no piece overlaps a later one, and all end within the buffer. */
  lemma {:induction false} BlitAllocation(bufferSize: nat, main: bool, links: nat, order: seq<bool>, i: nat)
    requires OnePerEngine(order, main, links) && (main || links > 0) && i < |order|
    ensures var s := Spaces(bufferSize, main, links, order, |order|);
            && s[0].offset == 0 && s[i].offset + s[i].size <= bufferSize
            && (i + 1 < |order| ==> s[i + 1].offset == s[i].offset + s[i].size)
            && (i + 1 == |order| ==> s[i].offset + s[i].size == bufferSize - bufferSize % ChunksCount(main, links))
            && forall j :: i < j < |order| ==> s[i].offset + s[i].size <= s[j].offset
  {
    hide CopySize, Spaces, ChunksCount;
    BlitTotal(bufferSize, main, links, order);
    PieceBounds(bufferSize, main, links, order, 0);
    PieceBounds(bufferSize, main, links, order, i);
    forall j | i < j < |order|
      ensures var s := Spaces(bufferSize, main, links, order, |order|);
              s[i].offset + s[i].size <= s[j].offset && (j == i + 1 ==> s[j].offset == s[i].offset + s[i].size)
    {
      PieceBounds(bufferSize, main, links, order, j);
      TotalMonotone(bufferSize, main, links, order, i + 1, j);
    }
  }

  /** The total is all but the remainder; with both kinds of engine the main share is the sum of the
      link shares. */
  lemma {:induction false} BlitTotal(bufferSize: nat, main: bool, links: nat, order: seq<bool>)
    requires OnePerEngine(order, main, links) && (main || links > 0)
    ensures var total := Total(bufferSize, main, links, order, |order|);
            && total == bufferSize - bufferSize % ChunksCount(main, links) <= bufferSize
            && (total < bufferSize <==> bufferSize % ChunksCount(main, links) != 0)
    ensures ChunksCount(main, links) == if links == 0 then 1 else if main then 2 * links else links
    ensures main && links > 0 ==>
              CopySize(bufferSize, main, links, true) == links * CopySize(bufferSize, main, links, false)
  {
    hide CopySize, Total;
    WholeTotal(bufferSize, main, links, order);
    MainShare(bufferSize, links);
  }

  lemma MainShare(bufferSize: nat, links: nat)
    ensures links > 0 ==> CopySize(bufferSize, true, links, true) == links * CopySize(bufferSize, true, links, false)
  {
  }
}
