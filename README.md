# Normalization kernel traits

A Dafny model of `transformer_engine/common/normalization/kernel_traits.h` from
Transformer Engine. That header resolves, at compile time, the layout of the
GPU layer-norm and RMS-norm kernels. It takes a hidden size, the element types and
a parallel decomposition (warps per row, rows per CTA, CTAs per row). From these it
derives the load width in elements, the loads per thread, the thread counts and the
shared-memory budgets. It rejects an invalid configuration with a `static_assert`
or with a division by zero in a constant expression.

The header holds only `enum` constants and `static_assert`s, with no state and no
loops. So each traits struct is a pure function from its template arguments to
either the resolved plan or the first check that fails, in declaration order:

- `KernelTraits.FinalizeTraits` models `Kernel_traits_finalize`. That is the
  layout of the pass that transposes partial weight gradients and sums them
  across CTAs.
- `KernelTraits.MainTraits` models `Kernel_traits`. That is the layout of the
  forward, data-gradient and weight-gradient kernels.
- `KernelTraits.TraitsBase` models `Kernel_traits_base`, the shape both structs
  inherit. `THREADS_PER_WARP` is 32.

Each C++ type is represented only by its `sizeof`, which is at least 1.
`Reducer::SMEM_BYTES` and `Stats::SMEM_BYTES` come from `utils.cuh`, which is not
part of this model. They are parameters: functions of
(CTAS_PER_ROW, WARPS_M, WARPS_N) chosen for the configuration's compute type.

`KernelTraitsProperties` states what an accepted plan guarantees. It also
characterises exactly which configurations each struct accepts, through the
predicates `FinalizeAdmissible` and `MainAdmissible`. These are written directly
over the template arguments.

Two places where the code as written does less than its own comments and
messages say. The model follows the code:

- The message of the check at line 44 says that the conflict-free shared-memory
  transpose exists only for a 4-byte compute type. So the check is meant to reject a
  compute type that is not 4 bytes wide. As written it tests `sizeof(BYTES_PER_LDG)`. That is the size of
  an enum whose value is a `uint32_t`, which is always 4 bytes. So it never rejects
  anything. `FinalizeTraits` models the check as written.
  `FinalizeAcceptsAnyComputeWidth` proves that no `uint32_t` load width fails it,
  and that a 2-byte compute type is accepted.
- The comments at lines 114-119 describe VEC_COLS as the number of vector loads
  that make up a hidden vector, and LDGS as each thread's share of them. The code checks
  only `LDGS * VEC_COLS_PER_LDG == VEC_COLS` (line 120). `HIDDEN_SIZE /
  ELTS_PER_LDG` at line 117 truncates without a check, and the byte-level check at
  line 121 is commented out. `RowBytesMissedWhenRagged` shows an accepted plan
  whose loads miss the last elements of a row.

A zero `CTAS_PER_ROW` is rejected in every case, though not always at the same
line. Line 96 rejects any `WARPS_M != 1` together with any `CTAS_PER_ROW != 1`,
zeros included. With `CTAS_PER_ROW == 0` and `WARPS_M == 1` that check passes, and
the division by zero at line 119 rejects the configuration at the latest. It can
be rejected earlier, at line 112, 113 or 117. `MainRejectsZeroCtas` states that no
such configuration is accepted.

## Model

| member | source | states |
|---|---|---|
| `KernelTraits.EltsPerLdgFits` | transformer_engine/common/normalization/kernel_traits.h:41 | elements per load is the truncating quotient: n elements fit in the load and n + 1 do not |
| `KernelTraits.FinalizeTraits` | transformer_engine/common/normalization/kernel_traits.h:30-65 | an accepted finalize plan carries its base shape and BYTES_PER_LDG, and has THREADS_PER_CTA = ROWS_PER_CTA * 32 with ROWS_PER_CTA <= 32, ELTS_PER_LDG the truncating quotient of BYTES_PER_LDG by sizeof(compute_t) (so those elements fit in one load), BYTES_PER_STG = ELTS_PER_LDG * sizeof(weight_t), COLS * BYTES_PER_LDG = HIDDEN * sizeof(compute_t), SMEM_BYTES_TRANSPOSE = THREADS_PER_CTA * BYTES_PER_LDG, SMEM_BYTES_OUTPUT = 32 * BYTES_PER_LDG, SMEM_BYTES_PER_CTA twice their sum, and CTAS * 32 = COLS; each error names a condition that holds of the inputs (TooManyRowsPerCta exactly when THREADS_PER_CTA >= 1056) |
| `KernelTraitsProperties.FinalizeAcceptance` | transformer_engine/common/normalization/kernel_traits.h:36-64 | the finalize traits accept if and only if THREADS_PER_CTA is a multiple of 32 and at most 1024, BYTES_PER_LDG is a nonzero uint32, HIDDEN * sizeof(compute_t) is a multiple of BYTES_PER_LDG, and the quotient is a multiple of 32 |
| `KernelTraitsProperties.FinalizeWholeWarps` | transformer_engine/common/normalization/kernel_traits.h:36-47 | an accepted finalize CTA is THREADS_PER_CTA / 32 whole warps, at most 32 of them, so at most 1024 threads |
| `KernelTraitsProperties.FinalizeCtasCoverHidden` | transformer_engine/common/normalization/kernel_traits.h:49-64 | in an accepted finalize plan, CTAS * 32 loads of BYTES_PER_LDG bytes are exactly the hidden vector of compute values |
| `KernelTraitsProperties.FinalizeSmemExample` | transformer_engine/common/normalization/kernel_traits.h:53-57 | 128 threads with 16-byte loads need 5120 bytes of shared memory, and such a configuration is accepted |
| `KernelTraitsProperties.FinalizeAcceptsAnyComputeWidth` | transformer_engine/common/normalization/kernel_traits.h:44-45 | the check at line 44 never rejects a uint32 load width, and a finalize configuration with a 2-byte compute type is accepted |
| `KernelTraits.MainTraits` | transformer_engine/common/normalization/kernel_traits.h:67-125 | an accepted main plan has WARPS_M == 1 or CTAS_PER_ROW == 1, an input type at least as wide as the output and weight types and no wider than one load, and nonzero CTAS_PER_ROW and WARPS_N; MultiRowWithMultiCta is returned exactly when WARPS_M != 1 and CTAS_PER_ROW != 1, and every other error names a condition that holds of the inputs (ZeroEltsPerLdg: the load is narrower than the input type; ZeroVecColsPerLdg: CTAS_PER_ROW or WARPS_N is 0) |
| `KernelTraitsProperties.MainAcceptance` | transformer_engine/common/normalization/kernel_traits.h:96-120 | the main traits accept if and only if WARPS_M == 1 or CTAS_PER_ROW == 1, sizeof(input_t) >= sizeof(output_t) and sizeof(weight_t), BYTES_PER_LDG >= sizeof(input_t), CTAS_PER_ROW and WARPS_N are nonzero, and HIDDEN / ELTS_PER_LDG is a multiple of CTAS_PER_ROW * WARPS_N * 32, whatever the Reducer and Stats need |
| `KernelTraitsProperties.MainThreadLayout` | transformer_engine/common/normalization/kernel_traits.h:70-90 | an accepted main plan has THREADS_PER_ROW = WARPS_N * 32, THREADS_PER_CTA = WARPS_M * WARPS_N * 32 = ROWS_PER_CTA * THREADS_PER_ROW and ROWS_PER_CTA = WARPS_M, and its base shape carries the same THREADS_PER_CTA |
| `KernelTraitsProperties.MainPlanValues` | transformer_engine/common/normalization/kernel_traits.h:80-119 | an accepted main plan carries CTAS_PER_ROW, WARPS_M, WARPS_N, BYTES_PER_LDG and COLS = HIDDEN_SIZE unchanged, NUM_ELTS = ELTS_PER_LDG is the nonzero truncating quotient of BYTES_PER_LDG by sizeof(input_t) (that many input elements fit in one load and one more does not), VEC_COLS_PER_LDG = CTAS_PER_ROW * THREADS_PER_ROW, VEC_COLS = HIDDEN / ELTS_PER_LDG, LDGS = VEC_COLS / VEC_COLS_PER_LDG, BYTES_PER_ROW = COLS * sizeof(input_t), BYTES_PER_ROW_PER_CTA = THREADS_PER_ROW * BYTES_PER_LDG, and SMEM_BYTES_DGRAD is the Reducer need |
| `KernelTraitsProperties.MainSmemBudget` | transformer_engine/common/normalization/kernel_traits.h:95-124 | in an accepted main plan SMEM_BYTES_WGRAD is 0 when CTAS_PER_ROW > 1 and WARPS_M * HIDDEN * sizeof(compute_t) otherwise, SMEM_BYTES is the Reducer's need plus SMEM_BYTES_WGRAD, and SMEM_BYTES_FWD is the Stats need |
| `KernelTraitsProperties.MainRejectsSplitRows` | transformer_engine/common/normalization/kernel_traits.h:96 | WARPS_M > 1 together with CTAS_PER_ROW > 1 is rejected with MultiRowWithMultiCta |
| `KernelTraitsProperties.MainRejectsZeroCtas` | transformer_engine/common/normalization/kernel_traits.h:96-119 | CTAS_PER_ROW == 0 is rejected whatever the other arguments: with MultiRowWithMultiCta (line 96) when WARPS_M != 1, and when WARPS_M == 1 by one of the checks at lines 112, 113, 117 or 119, never by those at lines 96 or 120 |
| `KernelTraitsProperties.MainRejectsNarrowInput` | transformer_engine/common/normalization/kernel_traits.h:112-113 | an input type narrower than the output or the weight type is rejected |
| `KernelTraitsProperties.MainLoadsCoverRow` | transformer_engine/common/normalization/kernel_traits.h:115-120 | in an accepted main plan LDGS * CTAS_PER_ROW * THREADS_PER_ROW = HIDDEN / ELTS_PER_LDG, and those loads fetch all but fewer than ELTS_PER_LDG elements of the row |
| `KernelTraitsProperties.MainExample1024` | transformer_engine/common/normalization/kernel_traits.h:108-120 | hidden 1024, 2-byte input, 16-byte loads, WARPS_N 4, WARPS_M 1, one CTA per row is accepted with ELTS_PER_LDG 8, THREADS_PER_ROW 128, VEC_COLS 128, LDGS 1 and a 4096-byte weight-gradient buffer |
| `KernelTraitsProperties.RowBytesCoveredWhenAligned` | transformer_engine/common/normalization/kernel_traits.h:121 | the disabled check LDGS * BYTES_PER_ROW_PER_CTA * CTAS_PER_ROW == BYTES_PER_ROW holds for an accepted plan when HIDDEN is a multiple of ELTS_PER_LDG and BYTES_PER_LDG a multiple of sizeof(input_t) |
| `KernelTraitsProperties.RowBytesMissedWhenRagged` | transformer_engine/common/normalization/kernel_traits.h:117-121 | hidden 1030 with a 2-byte input is accepted, yet its loads cover 2048 of the row's 2060 bytes, so the disabled check does not hold in general |
| `KernelTraitsProperties.FinalizeLanesPartitionColumns` | transformer_engine/common/normalization/kernel_traits.h:49-64 | taking the assignment the finalize kernel uses, lane l of CTA c handles column c * 32 + l (an assumption: the header defines no such map); in an accepted finalize plan these columns lie below COLS, every column below COLS is handled, and no two (CTA, lane) pairs share one |
| `KernelTraitsProperties.MainLoadsPartitionColumns` | transformer_engine/common/normalization/kernel_traits.h:114-120 | taking the assignment the main kernels use, load i of thread t in CTA c reads vector column i * VEC_COLS_PER_LDG + c * THREADS_PER_ROW + t (an assumption: the header defines no such map, its comments at lines 114-119 only suggest it); in an accepted main plan these columns lie below VEC_COLS, every vector column is read, and no two (load, CTA, thread) slots read the same one |

## Left out

- 32-bit arithmetic: template parameters and every derived constant are unbounded naturals. The `uint32_t` wrap of `WARPS_M_ * WARPS_N_ * THREADS_PER_WARP` at line 72 is not modelled. Neither is overflow elsewhere: it is a compile error for signed arithmetic, but the `sizeof` products at lines 49, 92 and 95 are computed in `size_t` and products of unsigned enums in `unsigned int`, and both wrap silently. Supported decompositions stay far below 2^31.
- Only the first failing check, in declaration order, is reported. A compiler may report several at once.
- The internals of `Reducer`, `Stats`, `TypeToVec2` and `Vec` live in `utils.cuh`, which is not part of this model. Their shared-memory needs are parameters. Whether `Vec<T, 0>` itself fails to compile is not modelled. `ELTS_PER_LDG == 0` is rejected at line 117 in any case.
- The type aliases `Ivec`, `Ovec`, `Wvec`, `Cvec` (lines 104-107), `reduce_t` (line 98) and the finalize `Reducer` (line 60) only name types. `index_t` is carried in `ElementTypes` but used by nothing.
- The kernels these traits parametrize are not modelled: CUDA execution, synchronization and vectorized loads and stores.
- MainTraits: its own contract states the conditions every accepted configuration meets and the conditions behind the errors. It does not name the condition behind `LdgsNotExact`, and it does not give the plan's constants. Separate lemmas state them about every accepted plan: `KernelTraitsProperties.MainAcceptance` the exact acceptance condition, `MainThreadLayout` the thread counts, `MainPlanValues` the remaining constants, and `MainSmemBudget` the shared-memory sizes.
