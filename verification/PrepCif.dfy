// The machine-independent byte count of ffi_prep_cif_core.

module PrepCif {
  import opened Align

  datatype Extent = Extent(size: nat, alignment: nat)

  // The running count before argument i, from a first one for the address of a structure returned;
  // word is FFI_SIZEOF_ARG.
  function BytesAt(word: nat, first: nat, es: seq<Extent>, i: nat): nat
    requires word > 0 && i <= |es| && forall j :: 0 <= j < |es| ==> es[j].alignment > 0
  {
    if i == 0 then first
    else AlignUp(BytesAt(word, first, es, i - 1), es[i - 1].alignment) + AlignUp(es[i - 1].size, word)
  }

  method PrepCore(word: nat, returnsStruct: bool, es: seq<Extent>) returns (bytes: nat)
    requires word > 0 && forall j :: 0 <= j < |es| ==> es[j].alignment > 0
    ensures bytes == BytesAt(word, if returnsStruct then AlignUp(word, word) else 0, es, |es|)
  {
    hide AlignUp;
    bytes := 0;
    if returnsStruct {
      bytes := AlignUp(word, word);
    }
    for i := 0 to |es|
      invariant bytes == BytesAt(word, if returnsStruct then AlignUp(word, word) else 0, es, i)
    {
      bytes := AlignUp(bytes, es[i].alignment);
      bytes := bytes + AlignUp(es[i].size, word);
    }
  }

  // Every argument is counted from the next multiple of its alignment on, with the least number of
  // whole words that holds it.
  lemma NextCount(word: nat, first: nat, es: seq<Extent>, i: nat) returns (start: nat)
    requires word > 0 && i < |es| && forall k :: 0 <= k < |es| ==> es[k].alignment > 0
    ensures var before, after := BytesAt(word, first, es, i), BytesAt(word, first, es, i + 1);
            && start % es[i].alignment == 0 && before <= start < before + es[i].alignment
            && (after - start) % word == 0 && es[i].size <= after - start < es[i].size + word
  {
    hide AlignUp;
    Aligned(BytesAt(word, first, es, i), es[i].alignment);
    Aligned(es[i].size, word);
    start := AlignUp(BytesAt(word, first, es, i), es[i].alignment);
  }

  // The count never falls, and covers every argument by itself.
  lemma {:induction false} CountCovers(word: nat, first: nat, es: seq<Extent>, i: nat, j: nat)
    requires word > 0 && j <= i <= |es| && forall k :: 0 <= k < |es| ==> es[k].alignment > 0
    ensures BytesAt(word, first, es, j) <= BytesAt(word, first, es, i)
    ensures j < i ==> BytesAt(word, first, es, j) + es[j].size <= BytesAt(word, first, es, i)
    decreases i
  {
    hide AlignUp;
    if j < i {
      CountCovers(word, first, es, i - 1, j);
      Aligned(BytesAt(word, first, es, i - 1), es[i - 1].alignment);
      Aligned(es[i - 1].size, word);
    }
  }
}
