/** Compile-time layout of the layer-norm and RMS-norm kernels of Transformer Engine
    (transformer_engine/common/normalization/kernel_traits.h).

    The C++ header computes every quantity as an `enum` constant over template
    parameters and rejects a configuration with `static_assert`, or with a
    division by zero inside a constant expression. Here each traits struct is a
    function from its template arguments to either the resolved plan or the first
    check, in declaration order, that fails. Every C++ type is known only by its
    `sizeof`; the shared-memory needs of the `Reducer` and `Stats` collaborators
    are parameters. */
module KernelTraits {

  /** `THREADS_PER_WARP` of `Kernel_traits_base`: lanes in one warp. */
  const THREADS_PER_WARP: nat := 32

  /** Default of the `BYTES_PER_LDG_` template parameter of `Kernel_traits`. */
  const DEFAULT_BYTES_PER_LDG: nat := 16

  /** One more than the largest `uint32_t`. */
  const U32_LIMIT: nat := 0x1_0000_0000

  /** The `sizeof` of a C++ type, which is never zero. */
  type ByteSize = n: nat | 1 <= n witness 1

  /** The element types of a configuration, each known only by its size in bytes. */
  datatype ElementTypes = ElementTypes(
    weightBytes: ByteSize,
    inputBytes: ByteSize,
    outputBytes: ByteSize,
    computeBytes: ByteSize,
    indexBytes: ByteSize)

  /** `Kernel_traits_base`: the problem shape both traits structs inherit. */
  datatype TraitsBase = TraitsBase(hiddenSize: nat, types: ElementTypes, threadsPerCta: nat)

  datatype Result<T, E> = Ok(value: T) | Err(error: E)

  /** The static `SMEM_BYTES` of a collaborator (`Reducer` or `Stats`) instantiated
      for the configuration's compute type, as a function of
      (CTAS_PER_ROW, WARPS_M, WARPS_N). */
  type SmemQuery = (nat, nat, nat) -> nat

  /** Elements of `eltBytes` bytes fetched by one load of `bytesPerLdg` bytes:
      the truncating division of lines 41, 86 and 108. */
  function EltsPerLdg(bytesPerLdg: nat, eltBytes: ByteSize): nat
  {
    bytesPerLdg / eltBytes
  }

  /** EltsPerLdg elements fit in one load, and one more would not. */
  lemma EltsPerLdgFits(bytesPerLdg: nat, eltBytes: ByteSize)
    ensures EltsPerLdg(bytesPerLdg, eltBytes) * eltBytes <= bytesPerLdg
    ensures bytesPerLdg < (EltsPerLdg(bytesPerLdg, eltBytes) + 1) * eltBytes
  {
  }

  /** A product of naturals is zero exactly when a factor is; MainTraits uses it
      to relate VEC_COLS_PER_LDG to its two factors. */
  lemma ProductZero(a: nat, b: nat)
    ensures a * b == 0 <==> a == 0 || b == 0
  {
  }

  /** `sizeof` of an unscoped enum whose one enumerator has value `v`: its
      underlying type is `int` or `unsigned int` (4 bytes) when `v` fits in
      32 bits, and a 64-bit type otherwise. */
  function EnumStorageBytes(v: nat): nat
  {
    if v < U32_LIMIT then 4 else 8
  }

  // ---------------------------------------------------------------------------
  // Kernel_traits_finalize: the pass that transposes and sums partial weight
  // gradients.

  datatype FinalizePlan = FinalizePlan(
    base: TraitsBase,
    rowsPerCta: nat,
    bytesPerLdg: nat,
    eltsPerLdg: nat,
    bytesPerStg: nat,
    cols: nat,
    smemBytesTranspose: nat,
    smemBytesOutput: nat,
    smemBytesPerCta: nat,
    ctas: nat)

  /** Why `Kernel_traits_finalize` fails to instantiate, in declaration order. */
  datatype FinalizeError =
    | TooManyRowsPerCta          // ROWS_PER_CTA exceeds THREADS_PER_WARP
    | TransposeNeeds4ByteWords   // sizeof(BYTES_PER_LDG) is not 4
    | PartialWarp                // THREADS_PER_CTA is not ROWS_PER_CTA whole warps
    | ZeroBytesPerLdg            // COLS divides by BYTES_PER_LDG
    | HiddenNotLdgAligned        // the hidden vector is not a whole number of loads
    | ColsNotWarpMultiple        // COLS is not a whole number of warps

  /** `Kernel_traits_finalize<HIDDEN_SIZE, ..., THREADS_PER_CTA, BYTES_PER_LDG>`.
      The check at line 44 is modelled as written: it tests the size of the enum
      `BYTES_PER_LDG`, not of the compute type. */
  function FinalizeTraits(hiddenSize: nat, types: ElementTypes, threadsPerCta: nat, bytesPerLdg: nat)
    : (r: Result<FinalizePlan, FinalizeError>)
    ensures r.Ok? ==>
      && r.value.base == TraitsBase(hiddenSize, types, threadsPerCta)
      && r.value.bytesPerLdg == bytesPerLdg
      && threadsPerCta == r.value.rowsPerCta * THREADS_PER_WARP
      && r.value.rowsPerCta <= THREADS_PER_WARP
      && r.value.cols * bytesPerLdg == hiddenSize * types.computeBytes
      && r.value.ctas * THREADS_PER_WARP == r.value.cols
      && r.value.eltsPerLdg == EltsPerLdg(bytesPerLdg, types.computeBytes)
      && r.value.eltsPerLdg * types.computeBytes <= bytesPerLdg
      && r.value.bytesPerStg == r.value.eltsPerLdg * types.weightBytes
      && r.value.smemBytesTranspose == threadsPerCta * bytesPerLdg
      && r.value.smemBytesOutput == THREADS_PER_WARP * bytesPerLdg
      && r.value.smemBytesPerCta == 2 * r.value.smemBytesTranspose + 2 * r.value.smemBytesOutput
      && r.value.smemBytesPerCta == 2 * threadsPerCta * bytesPerLdg + 2 * THREADS_PER_WARP * bytesPerLdg
      && r.value.bytesPerStg * types.computeBytes <= bytesPerLdg * types.weightBytes
    ensures r == Err(TooManyRowsPerCta) <==> threadsPerCta >= (THREADS_PER_WARP + 1) * THREADS_PER_WARP
    ensures r == Err(TransposeNeeds4ByteWords) ==> bytesPerLdg >= U32_LIMIT
    ensures r == Err(PartialWarp) ==> threadsPerCta % THREADS_PER_WARP != 0
    ensures r == Err(ZeroBytesPerLdg) ==> bytesPerLdg == 0
    ensures r == Err(HiddenNotLdgAligned) ==>
      bytesPerLdg > 0 && (hiddenSize * types.computeBytes) % bytesPerLdg != 0
    ensures r == Err(ColsNotWarpMultiple) ==>
      bytesPerLdg > 0 && (hiddenSize * types.computeBytes / bytesPerLdg) % THREADS_PER_WARP != 0
  {
    var rowsPerCta := threadsPerCta / THREADS_PER_WARP;
    if rowsPerCta > THREADS_PER_WARP then Err(TooManyRowsPerCta)
    else
      var eltsPerLdg := EltsPerLdg(bytesPerLdg, types.computeBytes);
      var bytesPerStg := eltsPerLdg * types.weightBytes;
      if EnumStorageBytes(bytesPerLdg) != 4 then Err(TransposeNeeds4ByteWords)
      else if threadsPerCta != rowsPerCta * THREADS_PER_WARP then Err(PartialWarp)
      else if bytesPerLdg == 0 then Err(ZeroBytesPerLdg)
      else
        var cols := hiddenSize * types.computeBytes / bytesPerLdg;
        if cols * bytesPerLdg != hiddenSize * types.computeBytes then Err(HiddenNotLdgAligned)
        else
          var smemBytesTranspose := threadsPerCta * bytesPerLdg;
          var smemBytesOutput := THREADS_PER_WARP * bytesPerLdg;
          var smemBytesPerCta := 2 * smemBytesTranspose + 2 * smemBytesOutput;
          if cols % THREADS_PER_WARP != 0 then Err(ColsNotWarpMultiple)
          else
            Ok(FinalizePlan(
              TraitsBase(hiddenSize, types, threadsPerCta),
              rowsPerCta, bytesPerLdg, eltsPerLdg, bytesPerStg, cols,
              smemBytesTranspose, smemBytesOutput, smemBytesPerCta,
              cols / THREADS_PER_WARP))
  }

  // ---------------------------------------------------------------------------
  // Kernel_traits: the forward, data-gradient and weight-gradient passes.

  datatype MainPlan = MainPlan(
    base: TraitsBase,
    ctasPerRow: nat,
    warpsM: nat,
    warpsN: nat,
    cols: nat,
    bytesPerLdg: nat,
    numElts: nat,
    threadsPerRow: nat,
    threadsPerCta: nat,
    rowsPerCta: nat,
    bytesPerRow: nat,
    bytesPerRowPerCta: nat,
    smemBytesWgrad: nat,
    smemBytesDgrad: nat,
    smemBytes: nat,
    eltsPerLdg: nat,
    vecColsPerLdg: nat,
    vecCols: nat,
    ldgs: nat,
    smemBytesFwd: nat)

  /** Why `Kernel_traits` fails to instantiate, in declaration order. */
  datatype MainError =
    | MultiRowWithMultiCta   // WARPS_M != 1 and CTAS_PER_ROW != 1
    | OutputWiderThanInput   // sizeof(input_t) < sizeof(output_t)
    | WeightWiderThanInput   // sizeof(input_t) < sizeof(weight_t)
    | ZeroEltsPerLdg         // VEC_COLS divides by ELTS_PER_LDG
    | ZeroVecColsPerLdg      // LDGS divides by VEC_COLS_PER_LDG
    | LdgsNotExact           // VEC_COLS is not a whole number of loads per thread

  /** `Kernel_traits<..., HIDDEN_SIZE, CTAS_PER_ROW, WARPS_M, WARPS_N, BYTES_PER_LDG>`,
      with `Reducer::SMEM_BYTES` and `Stats::SMEM_BYTES` supplied by the caller. */
  function MainTraits(
    types: ElementTypes, hiddenSize: nat, ctasPerRow: nat, warpsM: nat, warpsN: nat,
    bytesPerLdg: nat, reducerSmem: SmemQuery, statsSmem: SmemQuery)
    : (r: Result<MainPlan, MainError>)
    ensures r.Ok? ==>
      && (warpsM == 1 || ctasPerRow == 1)
      && types.outputBytes <= types.inputBytes
      && types.weightBytes <= types.inputBytes
      && types.inputBytes <= bytesPerLdg
      && 0 < ctasPerRow && 0 < warpsN
    ensures r == Err(MultiRowWithMultiCta) <==> warpsM != 1 && ctasPerRow != 1
    ensures r == Err(OutputWiderThanInput) ==> types.inputBytes < types.outputBytes
    ensures r == Err(WeightWiderThanInput) ==> types.inputBytes < types.weightBytes
    ensures r == Err(ZeroEltsPerLdg) ==> bytesPerLdg < types.inputBytes
    ensures r == Err(ZeroVecColsPerLdg) ==> ctasPerRow == 0 || warpsN == 0
  {
    var base := TraitsBase(hiddenSize, types, warpsM * warpsN * THREADS_PER_WARP);
    var cols := hiddenSize;
    var numElts := EltsPerLdg(bytesPerLdg, types.inputBytes);
    var threadsPerRow := warpsN * THREADS_PER_WARP;
    var threadsPerCta := warpsM * threadsPerRow;
    var rowsPerCta := warpsM;
    var bytesPerRow := cols * types.inputBytes;
    var bytesPerRowPerCta := threadsPerRow * bytesPerLdg;
    var smemBytesWgrad := if ctasPerRow > 1 then 0 else rowsPerCta * cols * types.computeBytes;
    if !(warpsM == 1 || ctasPerRow == 1) then Err(MultiRowWithMultiCta)
    else
      var smemBytesDgrad := reducerSmem(ctasPerRow, warpsM, warpsN);
      var smemBytes := smemBytesDgrad + smemBytesWgrad;
      var eltsPerLdg := EltsPerLdg(bytesPerLdg, types.inputBytes);
      if types.inputBytes < types.outputBytes then Err(OutputWiderThanInput)
      else if types.inputBytes < types.weightBytes then Err(WeightWiderThanInput)
      else
        var vecColsPerLdg := ctasPerRow * threadsPerRow;
        ProductZero(ctasPerRow, threadsPerRow);
        if eltsPerLdg == 0 then Err(ZeroEltsPerLdg)
        else
          var vecCols := cols / eltsPerLdg;
          if vecColsPerLdg == 0 then Err(ZeroVecColsPerLdg)
          else
            var ldgs := vecCols / vecColsPerLdg;
            if ldgs * vecColsPerLdg != vecCols then Err(LdgsNotExact)
            else
              Ok(MainPlan(
                base, ctasPerRow, warpsM, warpsN, cols, bytesPerLdg, numElts,
                threadsPerRow, threadsPerCta, rowsPerCta, bytesPerRow, bytesPerRowPerCta,
                smemBytesWgrad, smemBytesDgrad, smemBytes,
                eltsPerLdg, vecColsPerLdg, vecCols, ldgs,
                statsSmem(ctasPerRow, warpsM, warpsN)))
  }
}
