/** What the two traits structs of kernel_traits.h guarantee about the
    configurations they accept. */
module KernelTraitsProperties {
  import opened KernelTraits

  // ---------------------------------------------------------------------------
  // Kernel_traits_finalize

  /** When the finalize traits instantiate, stated directly over the template
      arguments: whole warps, at most one warp per row of a warp-wide transpose,
      a hidden vector that is a whole number of loads, and a whole number of
      warps of loads. `bytesPerLdg` is a `uint32_t`. */
  predicate FinalizeAdmissible(hiddenSize: nat, types: ElementTypes, threadsPerCta: nat, bytesPerLdg: nat)
  {
    && threadsPerCta % THREADS_PER_WARP == 0
    && threadsPerCta <= THREADS_PER_WARP * THREADS_PER_WARP
    && 0 < bytesPerLdg < U32_LIMIT
    && (hiddenSize * types.computeBytes) % bytesPerLdg == 0
    && (hiddenSize * types.computeBytes / bytesPerLdg) % THREADS_PER_WARP == 0
  }

  lemma MulAssociates(a: nat, b: nat, c: nat)
    ensures a * (b * c) == a * b * c
  {
  }

  lemma DivisionExact(x: nat, d: nat)
    requires 0 < d
    ensures (x / d) * d == x <==> x % d == 0
  {
  }

  /** The finalize traits accept exactly the admissible configurations. */
  lemma FinalizeAcceptance(hiddenSize: nat, types: ElementTypes, threadsPerCta: nat, bytesPerLdg: nat)
    ensures FinalizeTraits(hiddenSize, types, threadsPerCta, bytesPerLdg).Ok?
        <==> FinalizeAdmissible(hiddenSize, types, threadsPerCta, bytesPerLdg)
  {
    DivisionExact(threadsPerCta, THREADS_PER_WARP);
    if 0 < bytesPerLdg {
      DivisionExact(hiddenSize * types.computeBytes, bytesPerLdg);
    }
  }

  /** An accepted finalize CTA is a whole number of warps, at most 1024 threads. */
  lemma FinalizeWholeWarps(hiddenSize: nat, types: ElementTypes, threadsPerCta: nat, bytesPerLdg: nat)
    requires FinalizeTraits(hiddenSize, types, threadsPerCta, bytesPerLdg).Ok?
    ensures threadsPerCta == (threadsPerCta / THREADS_PER_WARP) * THREADS_PER_WARP
    ensures threadsPerCta / THREADS_PER_WARP <= THREADS_PER_WARP
    ensures threadsPerCta <= 1024
  {
  }

  /** The CTAS warps of loads of an accepted finalize plan cover the hidden
      vector of compute values exactly. */
  lemma FinalizeCtasCoverHidden(hiddenSize: nat, types: ElementTypes, threadsPerCta: nat, bytesPerLdg: nat)
    requires FinalizeTraits(hiddenSize, types, threadsPerCta, bytesPerLdg).Ok?
    ensures var p := FinalizeTraits(hiddenSize, types, threadsPerCta, bytesPerLdg).value;
      p.ctas * THREADS_PER_WARP * bytesPerLdg == hiddenSize * types.computeBytes
  {
    var p := FinalizeTraits(hiddenSize, types, threadsPerCta, bytesPerLdg).value;
    assert p.ctas * THREADS_PER_WARP == p.cols;
  }

  /** 128 threads with 16-byte loads need 2 * 128 * 16 + 2 * 32 * 16 = 5120 bytes
      of shared memory, and such a configuration exists. */
  lemma FinalizeSmemExample(hiddenSize: nat, types: ElementTypes)
    requires FinalizeTraits(hiddenSize, types, 128, 16).Ok?
    ensures FinalizeTraits(hiddenSize, types, 128, 16).value.smemBytesPerCta == 5120
    ensures FinalizeTraits(1024, ElementTypes(4, 2, 2, 4, 4), 128, 16).Ok?
  {
  }

  /** The check of line 44 measures the enum BYTES_PER_LDG, so no `uint32_t`
      load width ever fails it, and a 2-byte compute type is accepted. */
  lemma FinalizeAcceptsAnyComputeWidth(hiddenSize: nat, types: ElementTypes, threadsPerCta: nat, bytesPerLdg: nat)
    requires bytesPerLdg < U32_LIMIT
    ensures FinalizeTraits(hiddenSize, types, threadsPerCta, bytesPerLdg) != Err(TransposeNeeds4ByteWords)
    ensures FinalizeTraits(1024, ElementTypes(2, 2, 2, 2, 4), 128, 16).Ok?
  {
  }

  // ---------------------------------------------------------------------------
  // Kernel_traits

  /** When the main traits instantiate, stated directly over the template
      arguments: no row split across CTAs when a CTA holds several rows, an
      input type at least as wide as the output and weight types, a load at
      least one input element wide, and whole loads per thread. */
  predicate MainAdmissible(
    types: ElementTypes, hiddenSize: nat, ctasPerRow: nat, warpsM: nat, warpsN: nat, bytesPerLdg: nat)
  {
    && (warpsM == 1 || ctasPerRow == 1)
    && types.outputBytes <= types.inputBytes
    && types.weightBytes <= types.inputBytes
    && types.inputBytes <= bytesPerLdg
    && 0 < ctasPerRow
    && 0 < warpsN
    && (hiddenSize / (bytesPerLdg / types.inputBytes)) % (ctasPerRow * warpsN * THREADS_PER_WARP) == 0
  }

  /** The main traits accept exactly the admissible configurations, whatever the
      Reducer and Stats collaborators need. */
  lemma MainAcceptance(
    types: ElementTypes, hiddenSize: nat, ctasPerRow: nat, warpsM: nat, warpsN: nat,
    bytesPerLdg: nat, reducerSmem: SmemQuery, statsSmem: SmemQuery)
    ensures MainTraits(types, hiddenSize, ctasPerRow, warpsM, warpsN, bytesPerLdg, reducerSmem, statsSmem).Ok?
        <==> MainAdmissible(types, hiddenSize, ctasPerRow, warpsM, warpsN, bytesPerLdg)
  {
    var r := MainTraits(types, hiddenSize, ctasPerRow, warpsM, warpsN, bytesPerLdg, reducerSmem, statsSmem);
    if && (warpsM == 1 || ctasPerRow == 1)
       && types.outputBytes <= types.inputBytes && types.weightBytes <= types.inputBytes
       && types.inputBytes <= bytesPerLdg && 0 < ctasPerRow && 0 < warpsN
    {
      var elts := EltsPerLdg(bytesPerLdg, types.inputBytes);
      assert elts == bytesPerLdg / types.inputBytes && 0 < elts;
      var perLdg := ctasPerRow * (warpsN * THREADS_PER_WARP);
      MulAssociates(ctasPerRow, warpsN, THREADS_PER_WARP);
      assert 0 < perLdg;
      var vecCols := hiddenSize / elts;
      assert r.Ok? <==> (vecCols / perLdg) * perLdg == vecCols;
      DivisionExact(vecCols, perLdg);
    }
  }

  /** The thread layout of an accepted main plan: WARPS_N warps per row, WARPS_M
      rows per CTA, and a base shape whose THREADS_PER_CTA argument agrees with
      the plan's own count. */
  lemma MainThreadLayout(
    types: ElementTypes, hiddenSize: nat, ctasPerRow: nat, warpsM: nat, warpsN: nat,
    bytesPerLdg: nat, reducerSmem: SmemQuery, statsSmem: SmemQuery)
    requires MainTraits(types, hiddenSize, ctasPerRow, warpsM, warpsN, bytesPerLdg, reducerSmem, statsSmem).Ok?
    ensures var p := MainTraits(types, hiddenSize, ctasPerRow, warpsM, warpsN, bytesPerLdg, reducerSmem, statsSmem).value;
      && p.threadsPerRow == warpsN * THREADS_PER_WARP
      && p.threadsPerCta == warpsM * warpsN * THREADS_PER_WARP
      && p.rowsPerCta == warpsM
      && p.threadsPerCta == p.rowsPerCta * p.threadsPerRow
      && p.base == TraitsBase(hiddenSize, types, p.threadsPerCta)
  {
    MulAssociates(warpsM, warpsN, THREADS_PER_WARP);
  }

  /** The remaining constants of an accepted main plan: the template arguments
      it copies, NUM_ELTS and ELTS_PER_LDG as the truncating quotient of the load
      width by the input size (nonzero, the most input elements one load holds),
      VEC_COLS_PER_LDG, VEC_COLS and LDGS as the quotients that define them, the
      row byte counts, and the Reducer's need as SMEM_BYTES_DGRAD. */
  lemma MainPlanValues(
    types: ElementTypes, hiddenSize: nat, ctasPerRow: nat, warpsM: nat, warpsN: nat,
    bytesPerLdg: nat, reducerSmem: SmemQuery, statsSmem: SmemQuery)
    requires MainTraits(types, hiddenSize, ctasPerRow, warpsM, warpsN, bytesPerLdg, reducerSmem, statsSmem).Ok?
    ensures var p := MainTraits(types, hiddenSize, ctasPerRow, warpsM, warpsN, bytesPerLdg, reducerSmem, statsSmem).value;
      && p.ctasPerRow == ctasPerRow && p.warpsM == warpsM && p.warpsN == warpsN
      && p.cols == hiddenSize && p.bytesPerLdg == bytesPerLdg
      && p.numElts == p.eltsPerLdg
      && p.eltsPerLdg == EltsPerLdg(bytesPerLdg, types.inputBytes)
      && 0 < p.eltsPerLdg
      && p.eltsPerLdg * types.inputBytes <= bytesPerLdg < (p.eltsPerLdg + 1) * types.inputBytes
      && p.vecColsPerLdg == ctasPerRow * p.threadsPerRow
      && p.vecCols == hiddenSize / p.eltsPerLdg
      && p.ldgs == p.vecCols / p.vecColsPerLdg
      && p.bytesPerRow == hiddenSize * types.inputBytes
      && p.bytesPerRowPerCta == p.threadsPerRow * bytesPerLdg
      && p.smemBytesDgrad == reducerSmem(ctasPerRow, warpsM, warpsN)
  {
    EltsPerLdgFits(bytesPerLdg, types.inputBytes);
  }

  /** The shared memory of an accepted main plan: no weight-gradient buffer when
      a row is split across CTAs, otherwise one compute-typed hidden vector per
      row of the CTA, on top of what the Reducer needs; the forward pass needs
      what Stats needs. */
  lemma MainSmemBudget(
    types: ElementTypes, hiddenSize: nat, ctasPerRow: nat, warpsM: nat, warpsN: nat,
    bytesPerLdg: nat, reducerSmem: SmemQuery, statsSmem: SmemQuery)
    requires MainTraits(types, hiddenSize, ctasPerRow, warpsM, warpsN, bytesPerLdg, reducerSmem, statsSmem).Ok?
    ensures var p := MainTraits(types, hiddenSize, ctasPerRow, warpsM, warpsN, bytesPerLdg, reducerSmem, statsSmem).value;
      && (ctasPerRow > 1 ==> p.smemBytesWgrad == 0)
      && (ctasPerRow <= 1 ==> p.smemBytesWgrad == warpsM * hiddenSize * types.computeBytes)
      && p.smemBytes == reducerSmem(ctasPerRow, warpsM, warpsN) + p.smemBytesWgrad
      && p.smemBytesFwd == statsSmem(ctasPerRow, warpsM, warpsN)
  {
  }

  /** A CTA may hold several rows or share a row with other CTAs, never both. */
  lemma MainRejectsSplitRows(
    types: ElementTypes, hiddenSize: nat, ctasPerRow: nat, warpsM: nat, warpsN: nat,
    bytesPerLdg: nat, reducerSmem: SmemQuery, statsSmem: SmemQuery)
    requires warpsM > 1 && ctasPerRow > 1
    ensures MainTraits(types, hiddenSize, ctasPerRow, warpsM, warpsN, bytesPerLdg, reducerSmem, statsSmem)
        == Err(MultiRowWithMultiCta)
  {
  }

  /** No CTAs per row is never accepted: line 96 rejects it when a CTA holds
      several rows, and otherwise the division by VEC_COLS_PER_LDG at the latest
      does. */
  lemma MainRejectsZeroCtas(
    types: ElementTypes, hiddenSize: nat, warpsM: nat, warpsN: nat,
    bytesPerLdg: nat, reducerSmem: SmemQuery, statsSmem: SmemQuery)
    ensures var r := MainTraits(types, hiddenSize, 0, warpsM, warpsN, bytesPerLdg, reducerSmem, statsSmem);
      && r.Err?
      && (warpsM != 1 ==> r == Err(MultiRowWithMultiCta))
      && (warpsM == 1 ==> r != Err(MultiRowWithMultiCta) && r != Err(LdgsNotExact))
  {
  }

  /** An input type narrower than the output or the weight type is rejected. */
  lemma MainRejectsNarrowInput(
    types: ElementTypes, hiddenSize: nat, ctasPerRow: nat, warpsM: nat, warpsN: nat,
    bytesPerLdg: nat, reducerSmem: SmemQuery, statsSmem: SmemQuery)
    requires types.inputBytes < types.outputBytes || types.inputBytes < types.weightBytes
    ensures MainTraits(types, hiddenSize, ctasPerRow, warpsM, warpsN, bytesPerLdg, reducerSmem, statsSmem).Err?
  {
  }

  /** The loads of an accepted main plan cover the row with whole vectors: the
      LDGS loads of every thread of every CTA of a row fetch HIDDEN / ELTS_PER_LDG
      vectors, and the elements they miss are fewer than one vector. */
  lemma MainLoadsCoverRow(
    types: ElementTypes, hiddenSize: nat, ctasPerRow: nat, warpsM: nat, warpsN: nat,
    bytesPerLdg: nat, reducerSmem: SmemQuery, statsSmem: SmemQuery)
    requires MainTraits(types, hiddenSize, ctasPerRow, warpsM, warpsN, bytesPerLdg, reducerSmem, statsSmem).Ok?
    ensures var p := MainTraits(types, hiddenSize, ctasPerRow, warpsM, warpsN, bytesPerLdg, reducerSmem, statsSmem).value;
      && p.ldgs * ctasPerRow * p.threadsPerRow == hiddenSize / p.eltsPerLdg
      && p.ldgs * p.vecColsPerLdg * p.eltsPerLdg <= hiddenSize
      && hiddenSize < (p.ldgs * p.vecColsPerLdg + 1) * p.eltsPerLdg
  {
    var p := MainTraits(types, hiddenSize, ctasPerRow, warpsM, warpsN, bytesPerLdg, reducerSmem, statsSmem).value;
    assert p.vecColsPerLdg == ctasPerRow * p.threadsPerRow;
    MulAssociates(p.ldgs, ctasPerRow, p.threadsPerRow);
    var vectors := hiddenSize / p.eltsPerLdg;
    assert hiddenSize == vectors * p.eltsPerLdg + hiddenSize % p.eltsPerLdg;
  }

  /** Hidden size 1024 with a 2-byte input, the default 16-byte load, WARPS_N = 4,
      WARPS_M = 1 and CTAS_PER_ROW = 1: eight elements per load, 128 threads per
      row, 128 vectors and one load per thread. */
  lemma MainExample1024(reducerSmem: SmemQuery, statsSmem: SmemQuery)
    ensures var r := MainTraits(ElementTypes(2, 2, 2, 4, 4), 1024, 1, 1, 4, DEFAULT_BYTES_PER_LDG, reducerSmem, statsSmem);
      && r.Ok?
      && r.value.eltsPerLdg == 8
      && r.value.threadsPerRow == 128
      && r.value.vecCols == 128
      && r.value.ldgs == 1
      && r.value.smemBytesWgrad == 4096
  {
  }

  /** The relation left commented out at line 121 holds once the hidden size is
      a whole number of vectors and the load a whole number of input elements. */
  lemma RowBytesCoveredWhenAligned(
    types: ElementTypes, hiddenSize: nat, ctasPerRow: nat, warpsM: nat, warpsN: nat,
    bytesPerLdg: nat, reducerSmem: SmemQuery, statsSmem: SmemQuery)
    requires MainTraits(types, hiddenSize, ctasPerRow, warpsM, warpsN, bytesPerLdg, reducerSmem, statsSmem).Ok?
    requires types.inputBytes <= bytesPerLdg
    requires bytesPerLdg % types.inputBytes == 0
    requires hiddenSize % (bytesPerLdg / types.inputBytes) == 0
    ensures var p := MainTraits(types, hiddenSize, ctasPerRow, warpsM, warpsN, bytesPerLdg, reducerSmem, statsSmem).value;
      p.ldgs * p.bytesPerRowPerCta * p.ctasPerRow == p.bytesPerRow
  {
    var p := MainTraits(types, hiddenSize, ctasPerRow, warpsM, warpsN, bytesPerLdg, reducerSmem, statsSmem).value;
    MainLoadsCoverRow(types, hiddenSize, ctasPerRow, warpsM, warpsN, bytesPerLdg, reducerSmem, statsSmem);
    assert p.eltsPerLdg == bytesPerLdg / types.inputBytes;
    assert p.bytesPerRowPerCta == p.threadsPerRow * bytesPerLdg;
    assert p.bytesPerRow == hiddenSize * types.inputBytes;
    AlignedLoadsCoverBytes(p.ldgs, ctasPerRow, p.threadsPerRow, bytesPerLdg, p.eltsPerLdg, types.inputBytes, hiddenSize);
  }

  /** The arithmetic behind RowBytesCoveredWhenAligned: `groups` loads of `width`
      bytes, each `elts` elements of `eltBytes` bytes, that fetch all
      `hiddenSize / elts` vectors of a hidden vector with no remainder fetch all
      of its bytes. */
  lemma AlignedLoadsCoverBytes(ldgs: nat, ctas: nat, threads: nat, width: nat, elts: nat, eltBytes: nat, hiddenSize: nat)
    requires 0 < elts
    requires ldgs * ctas * threads == hiddenSize / elts
    requires width == elts * eltBytes
    requires hiddenSize % elts == 0
    ensures ldgs * (threads * width) * ctas == hiddenSize * eltBytes
  {
    var vectors := hiddenSize / elts;
    assert hiddenSize == vectors * elts;
    calc {
      ldgs * (threads * width) * ctas;
      { MulAssociates(ldgs, threads, width); }
      ldgs * threads * width * ctas;
      (ldgs * ctas * threads) * width;
      vectors * (elts * eltBytes);
      { MulAssociates(vectors, elts, eltBytes); }
      vectors * elts * eltBytes;
      hiddenSize * eltBytes;
    }
  }

  /** Without the alignment, line 121's relation fails on an accepted plan: hidden
      size 1030 is 128 whole vectors of 8 plus 6 elements that no load fetches, so
      the loads cover 2048 of the row's 2060 bytes. */
  lemma RowBytesMissedWhenRagged(reducerSmem: SmemQuery, statsSmem: SmemQuery)
    ensures var r := MainTraits(ElementTypes(2, 2, 2, 4, 4), 1030, 1, 1, 4, DEFAULT_BYTES_PER_LDG, reducerSmem, statsSmem);
      && r.Ok?
      && r.value.ldgs * r.value.bytesPerRowPerCta * r.value.ctasPerRow == 2048
      && r.value.bytesPerRow == 2060
  {
  }

  // ---------------------------------------------------------------------------
  // How the loads of an accepted plan share out the columns of a row

  /** `q * b + r` with `r < b` names `q` and `r` uniquely. */
  lemma DigitsUnique(q1: nat, r1: nat, q2: nat, r2: nat, b: nat)
    requires r1 < b && r2 < b
    requires q1 * b + r1 == q2 * b + r2
    ensures q1 == q2 && r1 == r2
  {
    if q1 < q2 {
      MulMonotone(q1 + 1, q2, b);
    } else if q2 < q1 {
      MulMonotone(q2 + 1, q1, b);
    }
  }

  lemma MulMonotone(a: nat, a': nat, b: nat)
    requires a <= a'
    ensures a * b <= a' * b
  {
  }

  /** Below `n * d`, the quotient by `d` is below `n`. */
  lemma QuotientBelow(x: nat, d: nat, n: nat)
    requires x < n * d
    ensures 0 < d && x / d < n
  {
    if n <= x / d {
      MulMonotone(n, x / d, d);
    }
  }

  /** A digit `q < n` followed by a digit `r < b` stays below `n * b`. */
  lemma DigitsBound(q: nat, r: nat, b: nat, n: nat)
    requires q < n && r < b
    ensures q * b + r < n * b
  {
    MulMonotone(q + 1, n, b);
  }

  /** The vector column that load `ldg` of thread `thread` of the `cta`-th CTA
      of a row fetches: each load step advances by VEC_COLS_PER_LDG, one column
      per thread of the row's CTAS_PER_ROW CTAs. This is the indexing of the
      kernels the traits parametrize, taken here as an assumption: the header
      itself defines no such map, and its comments on VEC_COLS_PER_LDG, VEC_COLS
      and LDGS only suggest it. */
  function VecColumn(p: MainPlan, ldg: nat, cta: nat, thread: nat): nat
  {
    ldg * p.vecColsPerLdg + cta * p.threadsPerRow + thread
  }

  predicate IsLoadSlot(p: MainPlan, ldg: nat, cta: nat, thread: nat)
  {
    ldg < p.ldgs && cta < p.ctasPerRow && thread < p.threadsPerRow
  }

  /** Some load of some thread of the row fetches vector column `col`. */
  ghost predicate IsFetched(p: MainPlan, col: nat)
  {
    exists ldg: nat, cta: nat, thread: nat :: IsLoadSlot(p, ldg, cta, thread) && VecColumn(p, ldg, cta, thread) == col
  }

  /** The shape line 120 enforces: one column per thread of the row per load
      step, and LDGS steps make up VEC_COLS exactly. */
  predicate ExactLoadGrid(p: MainPlan)
  {
    && p.vecColsPerLdg == p.ctasPerRow * p.threadsPerRow
    && p.ldgs * p.vecColsPerLdg == p.vecCols
  }

  lemma LoadSlotsInRow(p: MainPlan)
    requires ExactLoadGrid(p)
    ensures forall ldg: nat, cta: nat, thread: nat :: IsLoadSlot(p, ldg, cta, thread) ==> VecColumn(p, ldg, cta, thread) < p.vecCols
  {
    forall ldg: nat, cta: nat, thread: nat | IsLoadSlot(p, ldg, cta, thread)
      ensures VecColumn(p, ldg, cta, thread) < p.vecCols
    {
      DigitsBound(cta, thread, p.threadsPerRow, p.ctasPerRow);
      DigitsBound(ldg, cta * p.threadsPerRow + thread, p.vecColsPerLdg, p.ldgs);
    }
  }

  lemma LoadSlotsCoverRow(p: MainPlan)
    requires ExactLoadGrid(p)
    ensures forall col: nat :: col < p.vecCols ==> IsFetched(p, col)
  {
    forall col: nat | col < p.vecCols
      ensures IsFetched(p, col)
    {
      var perLdg, perCta := p.vecColsPerLdg, p.threadsPerRow;
      QuotientBelow(col, perLdg, p.ldgs);
      var ldg, rest := col / perLdg, col % perLdg;
      QuotientBelow(rest, perCta, p.ctasPerRow);
      var cta, thread := rest / perCta, rest % perCta;
      assert IsLoadSlot(p, ldg, cta, thread) && VecColumn(p, ldg, cta, thread) == col;
    }
  }

  lemma LoadSlotsDistinct(p: MainPlan)
    requires ExactLoadGrid(p)
    ensures forall l1: nat, c1: nat, t1: nat, l2: nat, c2: nat, t2: nat ::
      (IsLoadSlot(p, l1, c1, t1) && IsLoadSlot(p, l2, c2, t2) &&
       VecColumn(p, l1, c1, t1) == VecColumn(p, l2, c2, t2))
      ==> l1 == l2 && c1 == c2 && t1 == t2
  {
    forall l1: nat, c1: nat, t1: nat, l2: nat, c2: nat, t2: nat |
      IsLoadSlot(p, l1, c1, t1) && IsLoadSlot(p, l2, c2, t2) &&
      VecColumn(p, l1, c1, t1) == VecColumn(p, l2, c2, t2)
      ensures l1 == l2 && c1 == c2 && t1 == t2
    {
      var perCta := p.threadsPerRow;
      DigitsBound(c1, t1, perCta, p.ctasPerRow);
      DigitsBound(c2, t2, perCta, p.ctasPerRow);
      DigitsUnique(l1, c1 * perCta + t1, l2, c2 * perCta + t2, p.vecColsPerLdg);
      DigitsUnique(c1, t1, c2, t2, perCta);
    }
  }

  /** In an accepted main plan the LDGS loads of the THREADS_PER_ROW threads of
      the CTAS_PER_ROW CTAs of a row fetch every one of the VEC_COLS vector
      columns, each exactly once. */
  lemma MainLoadsPartitionColumns(
    types: ElementTypes, hiddenSize: nat, ctasPerRow: nat, warpsM: nat, warpsN: nat,
    bytesPerLdg: nat, reducerSmem: SmemQuery, statsSmem: SmemQuery)
    requires MainTraits(types, hiddenSize, ctasPerRow, warpsM, warpsN, bytesPerLdg, reducerSmem, statsSmem).Ok?
    ensures var p := MainTraits(types, hiddenSize, ctasPerRow, warpsM, warpsN, bytesPerLdg, reducerSmem, statsSmem).value;
      && (forall ldg: nat, cta: nat, thread: nat :: IsLoadSlot(p, ldg, cta, thread) ==> VecColumn(p, ldg, cta, thread) < p.vecCols)
      && (forall col: nat :: col < p.vecCols ==> IsFetched(p, col))
      && (forall l1: nat, c1: nat, t1: nat, l2: nat, c2: nat, t2: nat ::
            (IsLoadSlot(p, l1, c1, t1) && IsLoadSlot(p, l2, c2, t2) &&
             VecColumn(p, l1, c1, t1) == VecColumn(p, l2, c2, t2))
            ==> l1 == l2 && c1 == c2 && t1 == t2)
  {
    var p := MainTraits(types, hiddenSize, ctasPerRow, warpsM, warpsN, bytesPerLdg, reducerSmem, statsSmem).value;
    assert ExactLoadGrid(p);
    LoadSlotsInRow(p);
    LoadSlotsCoverRow(p);
    LoadSlotsDistinct(p);
  }

  /** The column that lane `lane` of the `cta`-th finalize CTA handles: one
      column per lane, one warp-wide group of columns per CTA. This is the
      indexing of the finalize kernel, taken here as an assumption: the header
      itself defines no such map, only CTAS = COLS / THREADS_PER_WARP. */
  function FinalizeColumn(cta: nat, lane: nat): nat
  {
    cta * THREADS_PER_WARP + lane
  }

  ghost predicate IsFinalizedBy(p: FinalizePlan, col: nat)
  {
    exists cta: nat, lane: nat :: cta < p.ctas && lane < THREADS_PER_WARP && FinalizeColumn(cta, lane) == col
  }

  /** In an accepted finalize plan the lanes of the CTAS CTAs handle every one of
      the COLS columns, each exactly once. */
  lemma FinalizeLanesPartitionColumns(hiddenSize: nat, types: ElementTypes, threadsPerCta: nat, bytesPerLdg: nat)
    requires FinalizeTraits(hiddenSize, types, threadsPerCta, bytesPerLdg).Ok?
    ensures var p := FinalizeTraits(hiddenSize, types, threadsPerCta, bytesPerLdg).value;
      && (forall cta: nat, lane: nat :: cta < p.ctas && lane < THREADS_PER_WARP ==> FinalizeColumn(cta, lane) < p.cols)
      && (forall col: nat :: col < p.cols ==> IsFinalizedBy(p, col))
      && (forall c1: nat, l1: nat, c2: nat, l2: nat ::
            (l1 < THREADS_PER_WARP && l2 < THREADS_PER_WARP && FinalizeColumn(c1, l1) == FinalizeColumn(c2, l2))
            ==> c1 == c2 && l1 == l2)
  {
    var p := FinalizeTraits(hiddenSize, types, threadsPerCta, bytesPerLdg).value;
    assert p.ctas * THREADS_PER_WARP == p.cols;
    forall cta: nat, lane: nat | cta < p.ctas && lane < THREADS_PER_WARP
      ensures FinalizeColumn(cta, lane) < p.cols
    {
      DigitsBound(cta, lane, THREADS_PER_WARP, p.ctas);
    }
    forall col: nat | col < p.cols
      ensures IsFinalizedBy(p, col)
    {
      QuotientBelow(col, THREADS_PER_WARP, p.ctas);
      assert FinalizeColumn(col / THREADS_PER_WARP, col % THREADS_PER_WARP) == col;
    }
    forall c1: nat, l1: nat, c2: nat, l2: nat |
      l1 < THREADS_PER_WARP && l2 < THREADS_PER_WARP && FinalizeColumn(c1, l1) == FinalizeColumn(c2, l2)
      ensures c1 == c2 && l1 == l2
    {
      DigitsUnique(c1, l1, c2, l2, THREADS_PER_WARP);
    }
  }
}
