# Verified model of the Cinnamon encrypted-computing stack

Cinnamon compiles programs on CKKS ciphertexts to limb instructions for several chips, runs them in a multi-threaded
emulator, and implements the same instructions in FPGA kernels. This project models the code of that stack whose
correctness is least visible: exact modular and ring arithmetic done in stages, in place and through permutations;
handles into a shared payload; residue-number conversions and key switching; the exchange of limbs between chips; and
the compiler passes that reorder and rewrite programs. `dafny verify dfyconfig.toml` checks all of it.

## The parts

- **Words and transforms.** `WordArithmetic` has the 64-bit modular primitives with their wrap-around. `FourStepStages`
  and `NttKernel` are the in-place four-step transform over arrays; `NttTheorems` proves that it evaluates at the odd
  powers of psi, inverts exactly and turns slotwise products into products modulo X^n + 1, with roots as
  `RootTables` (the table generator) establishes them. `Galois` and `Rotation` are the automorphism permutation, the
  encoder's slot map and rotation steps, and `RotationSteps` says what each step does to the slots. `Benes`,
  `BenesRouting` and `BenesKernel` are the permutation network and the control word it reads.
  `Congruence`, `Polynomials`, `Bits` and `Counting` are the mathematics underneath.
- **Residue numbers and keys.** `Rns`, `Resolve` and `Barrett` take residues to the one integer they stand for and
  back; `BaseConversion` and `BaseConverters` are fast base conversion in its batch, threaded and streaming forms;
  `Rescale` divides moduli out; `KeySwitch` is encryption, key generation, digit splitting and the key-switch identity
  slot by slot; `KeySwitchLimbs` composes these over whole limbs, extension included, `KeySwitchSizes` bounds the error
  that is left, and `KeySwitchRun` ties the operations that are run to it.
- **The payload machine.** `HandleMachine` and `HandleSteps` give the instruction modules once over handles and once
  over whole polynomials, `HandleRefinement` proves that the first refines the second, and `PayloadKernel` is the
  imperative code over the payload array. `OperandMeaning`, `PayloadMeaning` and `FeedMeaning` say what an instruction
  reads, computes, binds and leaves alone, by what the tables held before it. `PayloadControl` is the layout of the control words, their directories and the
  handle allocator, and `PayloadWords` says which machine the words stand for. `ConversionAgreement` and `SudDivision`
  connect runs of the machine to `BaseConversion` and `Rescale`.
- **Exchange between chips.** `SyncProtocol` has the dis/rcv/joi handlers as atomic steps, `SyncSafety` and
  `SyncProgress` prove safety and progress over all interleavings, `SyncStages` says exactly which programs can finish,
  `SyncMeaning` says what every step does to the registers and what a meeting delivers, `SyncEmulator` is the object whose
  methods take the steps, `SyncIds` is the compiler's numbering, splitting and expansion, which always yields such
  programs, and `SyncPrograms` says what sums, broadcasts, receives and local work leave in the registers.
- **Compiler passes.** `TopologicalSort` and `NextUse` work on instruction lists. `TermGraph` gives term graphs a
  meaning; `KeyswitchPasses` hoists rotations and merges receives. Fusing additions takes `AdditionTrees`,
  `PullRotations`, `FuseWalk`, `FuseAggregation` and `FusePass` for the pass itself, on any graph, and `FuseMeaning`,
  `FuseCondition`, `FuseReadings`, `FuseWeights`, `FuseExact` and `FuseExample` for what it means and exactly when.

Code that updates arrays, fields or local variables step by step is a method with loops and is tied by its contract to a
function; what the source promises is proved about that function. Where Dafny's reasoning needs a definition kept out of
sight, a body starts with `hide`.

## What the proofs show about the code

- `mod_add` wraps for moduli above 2^63; `ModAddRange` gives the exact range. `mod_inv` never overflows below 2^63.
- `Evaluator::mod` with a single input returns it unreduced; `EvaluatorMod` says exactly when the result is still right.
- The register form of division subtracts the target modulus once. That brings every residue into range exactly when
  the divisor is at most twice the target modulus; the quotient is right in any case, because the transform reduces.
- The accelerator takes rotation steps of any size. It rotates by the step except for right steps that are more than n / 2
  modulo 2n and no multiple of n / 2: those it silently takes for no rotation (`KernelShiftsExactly`). The emulator refuses
  all steps of n / 2 or more.
- Sync ids do not increase along a compiled stream, because limbs are expanded from the highest down (`IdsMayDecrease`).
  What keeps chips from waiting in a circle is weaker: whatever a chip gives after a wait belongs to a later stage than
  the wait. A program can finish if and only if such stages exist (`FinishesIffStaged`), and compiled programs have them:
  programs of local work, broadcasts, sums and receives between groups inside the group of their node.
- Fusing additions keeps every value it has to keep, for all inputs and whatever the operations it does not know
  compute, if and only if every addition that the walk reaches with a single-use rotation below it is used once
  (`FuseKeepsExactly`). That the absorbed additions themselves are used once is not enough: in the graph of
  `SharedAdditionChanges` the absorbed one is, the addition above it is shared, and its other user changes.
- Key switching has one integer polynomial as its error in all limbs: what P leaves of the digits times the noise of their
  keys, less R0 + R1 s. The division by P is exact (`KeySwitchRight`, `ErrorTimesP`), and `ErrorBound` says how large
  the error can be.
- Header counts can ask for 2^32 control words or more and still pass the layout check, when the end of the regions,
  added up in 32 bits, comes out within the control words: a bare header that asks for 2^31 outputs does
  (`AcceptedBeyond`). Below 2^32 words the regions of an accepted header fit (`AcceptedFits`).

## Model

| member | source | states |
|---|---|---|
| `WordArithmetic.ModAddExact` | CinnamonHLS/kernels/kernel_common.hpp:81-90 | The 64-bit modular sum is right if and only if the sum of the reduced operands does not wrap. |
| `WordArithmetic.ModAddRange` | CinnamonHLS/kernels/kernel_common.hpp:81-90 | It is right on all operands if and only if the modulus is at most 2^63. |
| `WordArithmetic.ModSubCorrect` | CinnamonHLS/kernels/kernel_common.hpp:92-100 | The difference is right for every modulus and all operands. |
| `WordArithmetic.ModMulCorrect` | CinnamonHLS/kernels/kernel_common.hpp:102-110 | The product through 128 bits is right for every modulus and all operands. |
| `WordArithmetic.ModPow` | CinnamonHLS/kernels/kernel_common.hpp:112-128 | Square and multiply gives base^exponent modulo mod; exponent 0 gives 1 and modulus 0 gives 0. |
| `WordArithmetic.ModInv` | CinnamonHLS/kernels/kernel_common.hpp:130-159 | For a modulus below 2^63 no signed step overflows; the result is the inverse, or 0 exactly when there is none. |
| `WordArithmetic.InverseUnique` | CinnamonHLS/kernels/kernel_common.hpp:130-159 | There is at most one inverse below the modulus, so the kernels and the generator agree on it. |
| `FourStepStages.FourStep` | CinnamonHLS/kernels/kernel_common.hpp:527-600 | Row transforms, middle twiddle and column transforms give the whole transform, for any root with omega^span = 1 and any shape. |
| `FourStepStages.SmallCyclicDft` | CinnamonHLS/kernels/kernel_common.hpp:506-525 | Entry k is the value of the lane polynomial at root^k. |
| `FourStepStages.RowTransforms` | CinnamonHLS/kernels/kernel_common.hpp:558-569 | Stage 1 leaves the transform of every strided lane in its row. |
| `FourStepStages.MiddleTwiddle` | CinnamonHLS/kernels/kernel_common.hpp:571-581 | Stage 2 multiplies entry (r, c) by omega^(r c). |
| `FourStepStages.TransposeStage` | CinnamonHLS/kernels/kernel_common.hpp:583-589 | Stage 3 turns rows into columns. |
| `FourStepStages.ColumnTransforms` | CinnamonHLS/kernels/kernel_common.hpp:591-602 | Stage 4 transforms every column and stores it with stride cols. |
| `NttKernel.StagesAssemble` | CinnamonHLS/kernels/kernel_common.hpp:555-602 | Buffers that meet the contracts of the four stages hold the value at omega^(c + cols r) at output c + cols r. |
| `NttKernel.CyclicFourStep` | CinnamonHLS/kernels/kernel_common.hpp:527-612 | In place, the array becomes the cyclic transform of what it held, scaled by the inverse length if asked; other spans are left alone. |
| `NttKernel.BitReversePermute` | CinnamonHLS/kernels/kernel_common.hpp:614-643 | In place, the array becomes its bit reversal for powers of two from 2 to 128, and is unchanged otherwise. |
| `NttKernel.NttApplyNegacyclic` | CinnamonHLS/kernels/kernel_common.hpp:645-677 | Forward leaves a(psi^(2k+1)) mod q at position bitrev(k), inverse leaves the interpolation; spans above 128 are only twisted, other invalid inputs untouched. |
| `NttKernel.TwistedCyclicIsForward` | CinnamonHLS/kernels/kernel_common.hpp:655-666 | Pre-twist, cyclic transform at psi^2 and bit reversal together evaluate at the odd powers of psi. |
| `NttTheorems.CyclicInverts` | CinnamonHLS/kernels/kernel_common.hpp:603-611 | A transform at w and one at its inverse multiply by the length, from w^(span/2) = -1 alone, without primality. |
| `NttTheorems.BackwardForward` | CinnamonHLS/kernels/kernel_common.hpp:645-677 | The inverse transform undoes the forward transform modulo q, for every array and all roots with the table's properties. |
| `NttTheorems.ForwardBackward` | CinnamonHLS/kernels/kernel_common.hpp:645-677 | The forward transform undoes the inverse transform. |
| `NttTheorems.ForwardProduct` | CinnamonHLS/kernels/kernel_montgomery_module.hpp:115-120 | The transform of a product modulo X^n + 1 is the slotwise product of the transforms. |
| `NttTheorems.MultiplyByTransforms` | CinnamonHLS/kernels/kernel_montgomery_module.hpp:115-120 | Transform, slotwise product and inverse transform yield the product modulo X^n + 1 and q. |
| `Polynomials.Orthogonality` | CinnamonHLS/kernels/kernel_common.hpp:603-611 | Row i of the transform against column j of its inverse sums to the length when i = j and to 0 otherwise. |
| `RootTables.GcdDivides` | CinnamonHLS/scripts/generate_ntt_tables.py:101-106 | The first component of the extended Euclid divides both arguments, and is the combination that the others give. |
| `RootTables.ModInverseCorrect` | CinnamonHLS/scripts/generate_ntt_tables.py:108-113 | The generator's inverse is the inverse, and 0 exactly when there is none. |
| `RootTables.EntryMeetsHypothesis` | CinnamonHLS/scripts/generate_ntt_tables.py:142-167 | Emitted entries meet the hypotheses of the transform theorems, and no suitable root is skipped. |
| `Galois.ApplyGaloisNttPermutation` | CinnamonHLS/kernels/kernel_common.hpp:764-789 | The loop writes the permuted array for odd elements and powers of two, and nothing otherwise. |
| `Galois.EvalAutomorphism` | CinnamonEmulator/cinnamon_emulator/galois.cpp:29-40 | At a root of X^n + 1, a(X^g) with its signs evaluates a at x^g. |
| `Bits.RevBit` | CinnamonHLS/kernels/kernel_common.hpp:716-724 | Bit i of a reversed index is bit bits - 1 - i of the index. |
| `Galois.GaloisIntertwines` | CinnamonHLS/kernels/kernel_common.hpp:764-789 | For every odd g, permuting the forward transform of a gives the forward transform of a(X^g) mod X^n + 1. |
| `Rotation.OrderOfFive` | CinnamonEmulator/cinnamon_emulator/ckks-encoder.cpp:33-51 | 5^d is 1 modulo 2^(k+2) exactly for the multiples d of 2^k. |
| `Rotation.InitializeIndexMap` | CinnamonEmulator/cinnamon_emulator/ckks-encoder.cpp:33-51 | The loop fills both halves of the index map with the bit-reversed positions of the powers of 5 and of their negatives. |
| `Rotation.IndexMapInjective` | CinnamonEmulator/cinnamon_emulator/ckks-encoder.cpp:33-51 | No two entries of the map agree. |
| `Rotation.IndexMapSurjective` | CinnamonEmulator/cinnamon_emulator/ckks-encoder.cpp:33-51 | Every slot is hit, so the map is a bijection on 0..n-1. |
| `Rotation.GetEltFromStep` | CinnamonEmulator/cinnamon_emulator/galois.cpp:50-84 | A left step gets that power of 5, a right step the power n/2 less the step, step 0 the element 2n - 1; steps of half the degree or more are refused. |
| `Rotation.GaloisEltFromStep` | CinnamonHLS/kernels/kernel_common.hpp:726-762 | The kernel's element for any step: the same powers of 5 as the emulator wherever that accepts the step, and 0 for invalid degrees. |
| `RotationSteps.ElementIsPower` | CinnamonEmulator/cinnamon_emulator/galois.cpp:50-84 | Exactly the steps below half the degree have an element: a left step that power of 5 modulo 2n, a right step its inverse, step 0 the element -1. |
| `RotationSteps.StepShifts` | CinnamonEmulator/cinnamon_emulator/galois.cpp:59-84 | Read through the index map, the permutation of a step's element shifts both halves of the slots cyclically by that step, to the left if it is positive and to the right if it is negative. |
| `RotationSteps.KernelShifts` | CinnamonHLS/kernels/kernel_common.hpp:740-762 | The kernel's element shifts by the step for all left steps and all right steps that are at most n/2 modulo 2n. |
| `RotationSteps.KernelStays` | CinnamonHLS/kernels/kernel_common.hpp:743-762 | For larger right steps it is 1, which moves nothing. |
| `RotationSteps.KernelShiftsExactly` | CinnamonHLS/kernels/kernel_common.hpp:740-762 | The kernel rotates by a step if and only if the step goes left, is at most n/2 to the right modulo 2n, or is a multiple of n/2. |
| `Rotation.RotationShifts` | CinnamonEmulator/cinnamon_emulator/galois.h:41-48 | Read through the index map, the permutation by 5^c shifts both halves of the slots cyclically by c. |
| `Rotation.ConjugationSwaps` | CinnamonEmulator/cinnamon_emulator/galois.cpp:55-56 | Step 0 exchanges the two halves of the slots. |
| `Rotation.OppositeStepsCancel` | CinnamonEmulator/cinnamon_emulator/galois.cpp:50-84 | The permutation of step -r undoes that of step r. |
| `Benes.NetworkPermutes` | CinnamonHLS/kernels/kernel_common.hpp:815-853 | For fixed control bits the network applies one permutation, whatever the values. |
| `Benes.NetworkReverses` | CinnamonHLS/kernels/kernel_common.hpp:815-853 | The same layers in reverse order undo the network. |
| `BenesRouting.TwoColour` | CinnamonHLS/kernels/kernel_common.hpp:815-853 | Two perfect matchings have a common proper two-colouring, which is what routing through two halves needs. |
| `BenesRouting.EveryPermutationRouted` | CinnamonHLS/kernels/kernel_common.hpp:815-853 | Every permutation of a power-of-two block is the routing of some control. |
| `BenesKernel.EveryPermutationHasWord` | CinnamonHLS/kernels/kernel_common.hpp:791-853 | Every permutation of up to 16 values is the routing of some 64-bit control word. |
| `BenesKernel.ReversedWordUndoes` | CinnamonHLS/kernels/kernel_common.hpp:815-853 | The word with its layers reversed undoes the network of the word. |
| `BenesKernel.ApplyBenesNetwork` | CinnamonHLS/kernels/kernel_common.hpp:815-853 | The layered in-place loop passes the values through exactly the layers that its control word sets, and leaves unsupported sizes alone. |
| `BenesKernel.WordPasses` | CinnamonHLS/kernels/kernel_common.hpp:833-853 | In layer `level`, switch i of block id exchanges its two positions if and only if bit level (size/2) + id (side/2) + i of the word is set, in plain arithmetic. |
| `BenesKernel.PassesAgree` | CinnamonHLS/kernels/kernel_common.hpp:833-853 | Whatever passes through layers that are set that way ends where the network of the word does: the bits determine the outcome. |
| `BenesKernel.ZeroStays` | CinnamonHLS/kernels/kernel_common.hpp:845-849 | The word 0 leaves the values alone in every layer. |
| `Barrett.EstimateBound` | CinnamonEmulator/cinnamon_emulator/evaluator.cpp:672-679 | The quotient estimate is at most one short, so one subtraction finishes the reduction. |
| `Barrett.NoCarryLost` | CinnamonEmulator/cinnamon_emulator/evaluator.cpp:659-673 | The two rounds of word products add up to floor(x ratio / 2^128); no carry leaves its word. |
| `Barrett.BarrettReduce128` | CinnamonEmulator/cinnamon_emulator/evaluator.cpp:652-680 | Word by word, with every wrap, the result is the 128-bit input modulo p, for every p up to 2^63. |
| `Barrett.ModuloUint` | CinnamonEmulator/cinnamon_emulator/evaluator.cpp:682-697 | Horner steps give the value modulo p if and only if there are two words or more, or the only word is below p. |
| `Rns.ResiduesDetermine` | CinnamonEmulator/cinnamon_emulator/evaluator.cpp:605-612 | Integers with the same residues agree modulo the product of a coprime base. |
| `Rns.ContributionRight` | CinnamonEmulator/cinnamon_emulator/evaluator.cpp:626-632 | The contribution of one base is its residue there and 0 in all other bases. |
| `Rns.ResolveAnyOrder` | CinnamonEmulator/cinnamon_emulator/evaluator.cpp:586-649 | One write per base, in any order, accumulates the one integer below the product that has the residues. |
| `Resolve.ResolveWrite` | CinnamonEmulator/cinnamon_emulator/evaluator.cpp:624-648 | In place, every column of 32-bit words becomes the old value plus the contribution, modulo the product. |
| `Resolve.ResolveRun` | CinnamonEmulator/cinnamon_emulator/evaluator.cpp:586-649 | From zeroed buffers, one write per base in any order leaves the base-2^32 words of the unique value. |
| `Resolve.PackedValue` | CinnamonEmulator/cinnamon_emulator/evaluator.cpp:711-724 | Two 32-bit words per 64-bit word hold the same integer. |
| `Resolve.EvaluatorMod` | CinnamonEmulator/cinnamon_emulator/evaluator.cpp:700-736 | Every coefficient is the integer modulo p if and only if there are two limbs or more, or the value is already below p; no input is an error. |
| `BaseConversion.LiftExceeds` | CinnamonEmulator/cinnamon_emulator/evaluator.cpp:870-913 | The lifted integer is x + u Q with 0 <= u <= sum of (prime - 1), and u = 0 for a single source. |
| `BaseConversion.TargetIsLift` | CinnamonEmulator/cinnamon_emulator/evaluator.cpp:889-913 | Each target residue formed with the factor matrix is that of the lifted integer. |
| `BaseConversion.ConversionValue` | CinnamonEmulator/cinnamon_emulator/evaluator.cpp:774-813 | All targets share one u: every target residue is that of x + u Q. |
| `BaseConverters.BaseConverter.constructor` | CinnamonEmulator/cinnamon_emulator/evaluator.cpp:870-920 | The converter starts with the factor matrix of its base, no source and no conversion. |
| `BaseConverters.BaseConverter.WriteInplace` | CinnamonEmulator/cinnamon_emulator/evaluator.cpp:750-772 | A source goes to its position by base id and is counted; an unknown id fails and changes nothing. |
| `BaseConverters.BaseConverter.Convert` | CinnamonEmulator/cinnamon_emulator/evaluator.cpp:774-813 | The tiled in-place accumulation leaves every target residue; a second call changes nothing. |
| `BaseConverters.PartialIsTarget` | CinnamonEmulator/cinnamon_emulator/evaluator.cpp:790-809 | A cell that has folded in all sources holds its target residue. |
| `BaseConverters.StepSound` | CinnamonEmulator/cinnamon_emulator/evaluator.cpp:833-857 | Each iteration of any thread keeps the invariant on its own cells and does not touch those of others. |
| `BaseConverters.CountDown` | CinnamonEmulator/cinnamon_emulator/evaluator.cpp:833-857 | Each turn takes one iteration off a thread's own count, so every thread ends. |
| `BaseConverters.ThreadsAgree` | CinnamonEmulator/cinnamon_emulator/evaluator.cpp:815-868 | Whatever the interleaving of the conversion threads, every cell ends at the target residue of the batch conversion. |
| `BaseConverters.StreamAgrees` | CinnamonHLS/kernels/kernel_base_conv_module.hpp:303-310 | Sources streamed in any order, each once, end at the same target residue. |
| `ConversionAgreement.FoldedDelivers` | CinnamonHLS/kernels/kernel_base_conv_module.hpp:303-310 | Sources folded into one accumulator in any order, each once, leave in every slot the target residue of that coefficient. |
| `ConversionAgreement.AccumulatorDelivers` | CinnamonHLS/kernels/kernel_base_conv_module.hpp:164-316 | After a run of the instruction loop that starts a unit and feeds it every source once, by `pl1` or `bcw` in any order and with anything for other units in between, the accumulators of the unit hold the target residues of the emulator's converter. |
| `ConversionAgreement.PayloadDelivers` | CinnamonHLS/kernels/kernel_base_conv_module.hpp:164-316 | The same on the accelerator: the payload ranges that the unit's directory names hold those residues. |
| `Rescale.ForwardLinear` | CinnamonEmulator/cinnamon_emulator/evaluator.cpp:403-419 | The transform of r + d y is the transform of r plus d times that of y, slot by slot. |
| `Rescale.DividesOut` | CinnamonEmulator/cinnamon_emulator/evaluator.cpp:409-419 | Subtracting the remainder's transform and multiplying by the inverse leaves the quotient's transform. |
| `Rescale.OneSubtractionSuffices` | CinnamonEmulator/cinnamon_emulator/evaluator.cpp:395-401 | One subtraction brings every residue below the target modulus if and only if the divisor is at most twice the modulus. |
| `Rescale.DivideByModulus` | CinnamonEmulator/cinnamon_emulator/evaluator.cpp:373-426 | The limb of x becomes the limb of floor(x / q_l); it fails exactly when the divisor has no inverse. |
| `Rescale.RemainderResolves` | CinnamonEmulator/cinnamon_emulator/evaluator.cpp:474-489 | The residues of x resolve to x modulo the product of the divided bases. |
| `Rescale.DivideByBases` | CinnamonEmulator/cinnamon_emulator/evaluator.cpp:474-503 | The base-converter form leaves the limb of floor(x / P) - u with u the conversion's multiple, 0 for one base; it fails exactly when P has no inverse. |
| `Rescale.SubtractAndDivide` | CinnamonEmulator/cinnamon_emulator/evaluator.cpp:474-503 | Slot by slot the converted limb's transform is subtracted and the inverse of the product of the bases multiplied in; it fails exactly when that product has no inverse. |
| `KeySwitch.EncryptZero` | CinnamonEmulator/cinnamon_emulator/ckks-encryptor.cpp:318-370 | Every limb of c0 + c1 s is the noise. |
| `KeySwitch.Encrypt` | CinnamonEmulator/cinnamon_emulator/ckks-encryptor.cpp:373-403 | Every slot decrypts to message plus noise. |
| `KeySwitch.DecryptEncrypted` | CinnamonEmulator/cinnamon_emulator/ckks-encryptor.cpp:405-447 | Decryption returns message plus noise modulo q. |
| `KeySwitch.GenerateEvalKey` | CinnamonEmulator/cinnamon_emulator/ckks-encryptor.cpp:462-533 | Limbs of the digit decrypt to noise plus P times the new key, all other limbs to noise alone. |
| `KeySwitch.KeyIdsAre` | CinnamonEmulator/cinnamon_emulator/ckks-encryptor.cpp:473-483 | A key has the limbs below the level and the topmost ones of the table, each once. |
| `KeySwitch.ExtensionIsTop` | CinnamonEmulator/cinnamon_emulator/ckks-encryptor.cpp:480-483 | P is the product of the topmost moduli of the table. |
| `KeySwitch.SplitDigits` | CinnamonCompiler/cinnamon/backend/cinnamon_compiler.h:4995-5023 | The split loops partition 0..level-1 into digits no larger than the extension: one digit for each remainder modulo the digit count, in order. |
| `KeySwitch.DigitsContribute` | CinnamonCompiler/cinnamon/backend/cinnamon_compiler.h:5001-5023 | The first n digits contribute P x s' when one of them holds limb i, plus their weighted noise. |
| `KeySwitch.KeySwitchIdentity` | CinnamonEmulator/cinnamon_emulator/evaluator.cpp:474-503 | P (k0 + k1 s) = P x s' + sum of Y_d e_d - (R0 + R1 s) modulo q_i, in every limb below level and for every digit partition. |
| `KeySwitchLimbs.RaisedIsLifted` | CinnamonCompiler/cinnamon/backend/cinnamon_compiler.h:5054-5090 | In every limb, extension included, a raised digit is the transform of the integer polynomial its base conversion lifts to; in its own limbs that is the limb itself. |
| `KeySwitchLimbs.ExtensionNoise` | CinnamonCompiler/cinnamon/backend/cinnamon_compiler.h:5108-5148 | Modulo every extension prime acc0 + acc1 s is the sum of the lifted digits times the noise of their keys. |
| `KeySwitchLimbs.PartIsAccumulated` | CinnamonEmulator/cinnamon_emulator/evaluator.cpp:474-489 | Modulo every extension prime the converted part R0 or R1 is the accumulator itself. |
| `KeySwitchLimbs.RemainderDivides` | CinnamonEmulator/cinnamon_emulator/evaluator.cpp:474-503 | P divides every coefficient of sum of Y_d e_d - (R0 + R1 s), as an integer polynomial. |
| `KeySwitchLimbs.SwitchedTimesP` | CinnamonEmulator/cinnamon_emulator/evaluator.cpp:474-503 | P (k0 + k1 s) = P x s' + sum of Y_d e_d - (R0 + R1 s) in every slot of every limb below level, with the same Y_d, e_d, R0 and R1 everywhere. |
| `KeySwitchLimbs.ErrorTimesP` | CinnamonEmulator/cinnamon_emulator/evaluator.cpp:474-503 | The error polynomial times P is sum of Y_d e_d - (R0 + R1 s) exactly. |
| `KeySwitchLimbs.KeySwitchRight` | CinnamonCompiler/cinnamon/backend/cinnamon_compiler.h:4985-5185 | For every partition into digits, k0 + k1 s = x s' + error in every slot of every limb below level, with one integer polynomial as the error of all limbs. |
| `KeySwitchLimbs.PartExceeds` | CinnamonEmulator/cinnamon_emulator/evaluator.cpp:870-913 | R0 and R1 are the value that the extension residues resolve to plus u P, with u bounded by the extension primes and 0 for a single one. |
| `KeySwitchSizes.ErrorBound` | CinnamonCompiler/cinnamon/backend/cinnamon_compiler.h:4985-5185 | P times the error stays within the digits times the noise, plus the two converted parts under the old key. |
| `KeySwitchRun.MakeDigit` | CinnamonEmulator/cinnamon_emulator/ckks-encryptor.cpp:462-533 | The generated key of a digit is one that the key switch needs: every slot of every limb, extension included. |
| `KeySwitchRun.DivideLimb` | CinnamonEmulator/cinnamon_emulator/evaluator.cpp:474-503 | Subtract-and-divide on an accumulator and the converted extension yields the limb of the key switch, for any inverse of P it finds. |
| `HandleRefinement.StepRefines` | CinnamonHLS/kernels/kernel_arithmetic_module.hpp:186-343 | Every instruction over handles gives the verdict and the polynomials of the machine that holds whole polynomials; a fault leaves registers and directories as they were. |
| `HandleRefinement.ModuleRefines` | CinnamonHLS/kernels/kernel_memory_module.hpp:72-129 | Whole module calls refine the polynomial machine up to and including the first fault, so aliasing through load, mov and store is unobservable. |
| `HandleRefinement.NewIsAlone` | CinnamonHLS/kernels/kernel_base_conv_module.hpp:286-297 | A fresh accumulator is referred to from nowhere else, so writing it in place is invisible. |
| `PayloadKernel.PairPosition` | CinnamonHLS/kernels/kernel_payload_common.hpp:211-234 | The binary search finds the first position of the key, or the length. |
| `OperandMeaning.ResolveNames` | CinnamonHLS/kernels/kernel_arithmetic_module.hpp:74-121 | An operand is what the first token entry with its key, an output of a conversion unit (by the bits of the operand) or a register holds; if it names nothing, the status says why. |
| `OperandMeaning.ModulusIs` | CinnamonHLS/kernels/kernel_payload_common.hpp:264-275 | The modulus of a base is that of the first row with its id. |
| `OperandMeaning.SlotOpRight` | CinnamonHLS/kernels/kernel_arithmetic_module.hpp:313-337 | A slot is below the modulus and congruent to the sum, difference, negative, copy or product that its opcode names. |
| `PayloadMeaning.StepComputes` | CinnamonHLS/kernels/kernel_arithmetic_module.hpp:189-343 | A computing instruction that succeeds leaves in its destination register a polynomial of its base: slot by slot the sum, difference, negative, copy or product of the operands it names, the forward transform for `ntt` and the inverse one for `int`, or the permutation of its rotation; nothing else changes. |
| `PayloadMeaning.StepStops` | CinnamonHLS/kernels/kernel_arithmetic_module.hpp:189-224 | If it stops, nothing changes, and the status is that of the first check that fails: first operand, then modulus and second operand in the order of the module, then room. |
| `PayloadMeaning.MemoryStepMeans` | CinnamonHLS/kernels/kernel_memory_module.hpp:78-127 | Loads and moves bind their destination to what the token or register holds, stores bind their output token to what the register holds; nothing else changes, and the status says which check failed. |
| `PayloadMeaning.ConversionStarts` | CinnamonHLS/kernels/kernel_base_conv_module.hpp:164-191 | A conversion starts exactly if the first configuration with its checksum belongs to the unit its destination names; the unit then runs it and has no accumulators, and nothing else changes. |
| `FeedMeaning.FeedMeans` | CinnamonHLS/kernels/kernel_base_conv_module.hpp:197-316 | A feeding instruction adds its source, taken back to coefficients if it is a transform, times the factor of source and target to every accumulator of its unit, modulo the target; nothing else changes. |
| `PayloadMeaning.SudSourcesNamed` | CinnamonHLS/kernels/kernel_arithmetic_module.hpp:248-272 | The sources that `sud` divides by are those of the first configuration with the active checksum of the unit whose output is its second operand. |
| `PayloadKernel.Payload.constructor` | CinnamonHLS/kernels/kernel_memory_module.hpp:40-72 | Tokens bound to filled handles, empty registers and outputs and no conversion make a machine in good order. |
| `PayloadKernel.Payload.AllocateHandle` | CinnamonHLS/kernels/kernel_payload_common.hpp:300-321 | The next handle, with its base and form recorded and nothing else changed. |
| `PayloadKernel.Payload.ResolveOperand` | CinnamonHLS/kernels/kernel_arithmetic_module.hpp:71-121 | Immediate, token, accumulator and register operands in the order of the code, with its statuses. |
| `PayloadKernel.Payload.FetchOperands` | CinnamonHLS/kernels/kernel_arithmetic_module.hpp:192-219 | Operands and modulus in the order in which each module checks them. |
| `PayloadKernel.Payload.SlotLoop` | CinnamonHLS/kernels/kernel_arithmetic_module.hpp:313-337 | The coefficient loop leaves in every slot of the fresh range, below the modulus, the sum, difference, negative, copy or product of the operands' slots, and touches nothing else. |
| `PayloadKernel.Payload.AccumulateLoop` | CinnamonHLS/kernels/kernel_base_conv_module.hpp:303-310 | The accumulation loop updates exactly the accumulator's range. |
| `PayloadKernel.Payload.FindSudDivisor` | CinnamonHLS/kernels/kernel_arithmetic_module.hpp:248-297 | On a conversion operand the divisor is found exactly when the conversion is configured with known source moduli, and is their product modulo q; on a register operand it is 0, the limb's own modulus modulo itself. |
| `SudDivision.DivisorIsProduct` | CinnamonHLS/kernels/kernel_arithmetic_module.hpp:270-285 | The running product is congruent to that of the source moduli, and is missing exactly when one of them is. |
| `SudDivision.SudDivides` | CinnamonHLS/kernels/kernel_arithmetic_module.hpp:248-297 | What the instruction divides by: the product of the source moduli of the conversion, or 0 for a register. |
| `SudDivision.SudSlotsDivide` | CinnamonHLS/kernels/kernel_arithmetic_module.hpp:297-337 | Subtracting the output of a conversion and multiplying by the inverse of the product P of its sources turns the limb of x into the limb of floor(x / P) - u. |
| `SudDivision.SudComputes` | CinnamonHLS/kernels/kernel_arithmetic_module.hpp:242-337 | The instruction on the limb of x and the output of a configured conversion gives the limb of floor(x / P) - u, and stops exactly when P has no inverse. |
| `PayloadKernel.Payload.Sud` | CinnamonHLS/kernels/kernel_arithmetic_module.hpp:242-337 | The subtract-and-divide result or the status of the check that failed, with the payload untouched on failure. |
| `PayloadKernel.Payload.Rotate` | CinnamonHLS/kernels/kernel_automorphism_module.hpp:72-115 | The source range is permuted into the fresh range; a step without an element is unsupported. |
| `PayloadKernel.Payload.ExecuteMemory` | CinnamonHLS/kernels/kernel_memory_module.hpp:72-129 | Loads and moves alias handles, stores update the output directory, with every status of the code. |
| `PayloadKernel.Payload.ExecuteCompute` | CinnamonHLS/kernels/kernel_montgomery_module.hpp:75-130 | Computing instructions read ranges, write one fresh range and bind one register, as the step says. |
| `PayloadKernel.Payload.OpenAccumulator` | CinnamonHLS/kernels/kernel_base_conv_module.hpp:283-301 | An accumulator is allocated and zeroed when missing, and refused when it has another base. |
| `PayloadKernel.Payload.FeedTargets` | CinnamonHLS/kernels/kernel_base_conv_module.hpp:267-314 | The source is folded into every accumulator, up to the first failing one. |
| `PayloadKernel.Payload.StartConversion` | CinnamonHLS/kernels/kernel_base_conv_module.hpp:164-190 | Starting a conversion activates its configuration and drops the accumulators of the unit. |
| `PayloadKernel.Payload.ExecuteBaseConv` | CinnamonHLS/kernels/kernel_base_conv_module.hpp:158-316 | One instruction of the streaming conversion is the step of the machine. |
| `PayloadKernel.Payload.ExecuteModule` | CinnamonHLS/kernels/kernel_ntt_module.hpp:100-160 | The instruction loop of a module is the run of the machine, stopping at the first fault. |
| `PayloadControl.ParseLayout` | CinnamonHLS/kernels/kernel_payload_common.hpp:62-105 | Accepted layouts, and the three refusals in the order of the code, with offsets truncated after every addition. |
| `PayloadControl.AcceptedFits` | CinnamonHLS/kernels/kernel_payload_common.hpp:87-105 | The regions of an accepted header lie one behind the other within the control words if and only if the counts ask for less than 2^32 words. |
| `PayloadControl.AcceptedBeyond` | CinnamonHLS/kernels/kernel_payload_common.hpp:95-101 | A header of nine words that asks for 2^31 outputs is accepted although its regions do not fit. |
| `PayloadControl.PairSearch` | CinnamonHLS/kernels/kernel_payload_common.hpp:211-234 | The search in the control words finds the position of the key in the directory, or its length. |
| `PayloadControl.PairLookup` | CinnamonHLS/kernels/kernel_payload_common.hpp:211-234 | The handle that the machine's directory binds to the key, 0 for none. |
| `PayloadControl.PairUpdate` | CinnamonHLS/kernels/kernel_payload_common.hpp:236-262 | One word changes when the key is there, none otherwise. |
| `PayloadControl.UpdateBinds` | CinnamonHLS/kernels/kernel_payload_common.hpp:236-262 | After an update the key is bound to the handle, every other key as before, and the keys are still sorted. |
| `PayloadControl.LookupModulus` | CinnamonHLS/kernels/kernel_payload_common.hpp:264-275 | The modulus of the first row with the id, 0 for none. |
| `PayloadControl.SameModulus` | CinnamonHLS/kernels/kernel_payload_common.hpp:264-275 | Rows in the control words give the moduli of the machine's configuration. |
| `PayloadControl.AllocateHandle` | CinnamonHLS/kernels/kernel_payload_common.hpp:300-321 | The next handle, or 0 exactly when the capacity is used up. |
| `PayloadControl.AllocationApart` | CinnamonHLS/kernels/kernel_payload_common.hpp:300-321 | Allocation binds a handle nobody had and leaves moduli, registers, directories, layout and all other handles as they were. |
| `PayloadControl.RangesApart` | CinnamonHLS/kernels/kernel_payload_common.hpp:296-299 | Handles up to the capacity have disjoint ranges in a payload below 2^32 words that holds all of them. |
| `PayloadWords.ModulusRepresents` | CinnamonHLS/kernels/kernel_payload_common.hpp:264-275 | When the control words stand for a machine, a modulus looked up in them is that of the machine. |
| `PayloadWords.AllocationRepresents` | CinnamonHLS/kernels/kernel_payload_common.hpp:301-321 | Allocating in the control words is allocating in the machine they stand for. |
| `PayloadWords.StoreRepresents` | CinnamonHLS/kernels/kernel_payload_common.hpp:236-262 | Binding an output token in the control words is the machine's store. |
| `PayloadWords.ReadRegisters` | CinnamonHLS/kernels/kernel_base_conv_module.hpp:134-142 | The registers copied out of the control words are those the words stand for. |
| `PayloadWords.WriteRegisters` | CinnamonHLS/kernels/kernel_base_conv_module.hpp:318-322 | After the registers are copied back the words stand for them, and nothing else has changed. |
| `PayloadWords.RegistersRepresent` | CinnamonHLS/kernels/kernel_base_conv_module.hpp:318-322 | Words with the registers copied back stand for the machine with those registers. |
| `SyncProtocol.MergeAdd` | CinnamonEmulator/cinnamon_emulator/emulator.cpp:1580-1588 | One more contribution to the running sum gives the sum of one more, so arrival order does not matter. |
| `SyncMeaning.MergeIsSum` | CinnamonEmulator/cinnamon_emulator/emulator.cpp:1577-1588 | The sum of contributions is, slot by slot, their sum modulo the modulus, as long as the longest of them; a single contribution is handed on as it is. |
| `SyncSafety.IterateSafe` | CinnamonEmulator/cinnamon_emulator/emulator.cpp:1455-1627 | No iteration of any chip throws, and the invariant is kept in every interleaving. |
| `SyncSafety.RunRegisters` | CinnamonEmulator/cinnamon_emulator/emulator.cpp:1507-1556 | In every reachable state every chip holds the registers of the reference, whose steps are what InstructionMeans says. |
| `SyncMeaning.ReceiveStores` | CinnamonEmulator/cinnamon_emulator/emulator.cpp:1528-1552 | In any run a receive waits until the value is there, then its destination register holds what was delivered and every other register is as before. |
| `SyncMeaning.JoinStores` | CinnamonEmulator/cinnamon_emulator/emulator.cpp:1600-1608 | In any run a destination waits until all have contributed, then its register holds what was delivered and every other register is as before. |
| `SyncMeaning.JoinGives` | CinnamonEmulator/cinnamon_emulator/emulator.cpp:1572-1595 | In any run a contribution is what the source register held; the first becomes the running sum, later ones are added slot by slot; a dead source is gone, nothing else changes. |
| `SyncMeaning.BroadcastGives` | CinnamonEmulator/cinnamon_emulator/emulator.cpp:1471-1488 | In any run a broadcast puts up what its source register held; a dead source is gone, nothing else changes. |
| `SyncMeaning.OtherChips` | CinnamonEmulator/cinnamon_emulator/emulator.cpp:1661-1780 | An iteration of one chip leaves the registers and the place of all others. |
| `SyncMeaning.InstructionMeans` | CinnamonEmulator/cinnamon_emulator/emulator.cpp:1455-1627 | Between any two runs that stand before and after an instruction, the registers differ by its effect alone: a dead source is gone, a destination holds what its meeting delivers. |
| `SyncMeaning.BroadcastBrought` | CinnamonEmulator/cinnamon_emulator/emulator.cpp:1471-1488 | A broadcast delivers what the sender's source register held before its instruction, in any run. |
| `SyncMeaning.JoinBrought` | CinnamonEmulator/cinnamon_emulator/emulator.cpp:1572-1595 | A join delivers the slotwise modular sum of what all members' source registers held before theirs. |
| `SyncSafety.RunsAgree` | CinnamonEmulator/cinnamon_emulator/emulator.cpp:1661-1780 | Two interleavings that finish leave the same registers. |
| `SyncSafety.NotErasedEarly` | CinnamonEmulator/cinnamon_emulator/emulator.cpp:1490-1495 | A broadcast value is there until the last member of its meeting has read it. |
| `SyncSafety.NothingLeft` | CinnamonEmulator/cinnamon_emulator/emulator.cpp:1600-1608 | When all chips have finished, `dis_value` and `joi_value` are empty. |
| `SyncProgress.EnabledStays` | CinnamonEmulator/cinnamon_emulator/emulator.cpp:1661-1780 | No iteration of another chip disables a chip that can move. |
| `SyncProgress.SomeoneEnabled` | CinnamonEmulator/cinnamon_emulator/emulator.cpp:1661-1780 | No reachable unfinished state is stuck. |
| `SyncProgress.RoundGains` | CinnamonEmulator/cinnamon_emulator/emulator.cpp:1661-1780 | Every round in which all chips have a turn makes progress. |
| `SyncProgress.FairRunsComplete` | CinnamonEmulator/cinnamon_emulator/emulator.cpp:1661-1780 | Every fair run takes all threads out of their loops with the reference's registers and nothing left on offer. |
| `SyncStages.IterateTidy` | CinnamonEmulator/cinnamon_emulator/emulator.cpp:1455-1627 | With matching meetings alone, a value is on offer only after its broadcast and a counter never exceeds the contributions, so a wait ends only when it is served. |
| `SyncStages.FinishedStaged` | CinnamonEmulator/cinnamon_emulator/emulator.cpp:1661-1780 | A run that finishes puts the meetings into stages that rise along every chip. |
| `SyncStages.StagedFinishes` | CinnamonEmulator/cinnamon_emulator/emulator.cpp:1661-1780 | With stages, round robin finishes within a bound computed from the program. |
| `SyncStages.FinishesIffStaged` | CinnamonEmulator/cinnamon_emulator/emulator.cpp:1661-1780 | A program of matching meetings can finish if and only if its meetings have such stages. |
| `SyncStages.CircleHasNoStages` | CinnamonEmulator/cinnamon_emulator/emulator.cpp:1507-1530 | Two chips that receive before they send never finish, whatever the schedule. |
| `SyncEmulator.Emulator.HandleDis` | CinnamonEmulator/cinnamon_emulator/emulator.cpp:1455-1505 | The handler updates the shared fields in place as the protocol's step does, and throws exactly when it does; the value put up is what the source register held, and a dead source is gone. |
| `SyncEmulator.Emulator.HandleRcv` | CinnamonEmulator/cinnamon_emulator/emulator.cpp:1507-1556 | The same for a receive: once the value is there the destination register holds it and no other register changes. |
| `SyncEmulator.Emulator.HandleJoi` | CinnamonEmulator/cinnamon_emulator/emulator.cpp:1558-1627 | The same for a join: contributions are added slot by slot, and at the full count the destination register holds the sum and no other register changes. |
| `SyncEmulator.Emulator.Iterate` | CinnamonEmulator/cinnamon_emulator/emulator.cpp:1661-1780 | One turn of a thread's loop is the iteration of the machine. |
| `SyncEmulator.Emulator.RunSchedule` | CinnamonEmulator/cinnamon_emulator/emulator.cpp:1661-1780 | On a well-formed program any schedule runs without an exception to the state of the run. |
| `SyncIds.NumberNode` | CinnamonCompiler/cinnamon/backend/cinnamon_compiler.h:6458-6482 | Broadcasts, sums and receives in one node are numbered in order from the given number; instructions are otherwise unchanged. |
| `SyncIds.SetSyncIds` | CinnamonCompiler/cinnamon/backend/cinnamon_compiler.h:6448-6484 | All communication of the program, receives included, is numbered in order from 1, unless there is only one partition. |
| `SyncIds.EventsDistinct` | CinnamonCompiler/cinnamon/backend/limb_instruction.h:535-555 | Number and limb together give every exchange its own id. |
| `SyncIds.OneHolder` | CinnamonCompiler/cinnamon/backend/cinnamon_compiler.h:920-937 | In an aligned group exactly one chip holds a limb. |
| `SyncIds.RenderedOnce` | CinnamonCompiler/cinnamon/backend/cinnamon_compiler.h:981-1033 | A chip that takes part in an exchange has one instruction for it, all others none; a receive is a broadcast from the holder in one group to the holder in the other, and a copy where they are the same chip. |
| `SyncIds.RenderedPart` | CinnamonCompiler/cinnamon/backend/cinnamon_compiler.h:939-1033 | The holder of a broadcast or received limb sends from its source register and the others receive into the destination register; all chips of the group join a sum from the source register, the holder with the destination register; all name the number of chips that take part. |
| `SyncIds.CompiledOrder` | CinnamonCompiler/cinnamon/backend/cinnamon_compiler.h:5915-5952 | Exchanges come in the same order on every chip. |
| `SyncIds.CompiledWellFormed` | CinnamonCompiler/cinnamon/backend/cinnamon_compiler.h:6486-6508 | The streams of a numbered program of local work, broadcasts, sums and receives have matching meetings, in stages that rise along every chip. |
| `SyncIds.CompiledCompletes` | CinnamonCompiler/cinnamon/backend/cinnamon_compiler.h:6989-7025 | Every fair run of such a compiled program completes on all chips with the registers of the reference. |
| `SyncPrograms.EventPlaced` | CinnamonCompiler/cinnamon/backend/cinnamon_compiler.h:5915-5952 | Every limb of every instruction is expanded at one place: node after node, limbs from the highest down, the instructions in order at each limb. |
| `SyncPrograms.Section` | CinnamonCompiler/cinnamon/backend/cinnamon_compiler.h:5915-5952 | The stream of a chip is its work for all of these, one after the other. |
| `SyncPrograms.CompiledSum` | CinnamonCompiler/cinnamon/backend/polynomial_instruction.h:820-836 | In any run of a compiled program, after a sum the destination register of the holder holds the slotwise sum, modulo the prime of the limb, of what the source registers of all chips of the group held; its other registers are as before but for a dead source. |
| `SyncPrograms.CompiledContributor` | CinnamonCompiler/cinnamon/backend/limb_instruction.h:552-580 | A chip that only contributes keeps all registers but a dead source. |
| `SyncPrograms.CompiledTransfer` | CinnamonCompiler/cinnamon/backend/cinnamon_compiler.h:939-1033 | After a broadcast or a receive between groups the destination register of every receiver holds what the source register of the sender held, and no other register has changed. |
| `SyncPrograms.CompiledSender` | CinnamonCompiler/cinnamon/backend/cinnamon_compiler.h:939-1033 | The sender keeps all registers but a dead source. |
| `SyncPrograms.CompiledWork` | CinnamonCompiler/cinnamon/backend/cinnamon_compiler.h:981-1033 | Local work applies its operations in order; a receive whose two groups keep the limb on one chip is a copy there. |
| `SyncPrograms.Bystanders` | CinnamonCompiler/cinnamon/backend/cinnamon_compiler.h:981-1033 | Chips outside the group, chips that hold a limb in neither group of a receive, and limbs that an instruction does not name get nothing to do. |
| `SyncIds.IdsMayDecrease` | CinnamonCompiler/cinnamon/backend/cinnamon_compiler.h:5940-5949 | A stream in which ids decrease: the receive of limb 1 comes before the broadcast of limb 0. |
| `TopologicalSort.StuckMeansNone` | CinnamonCompiler/cinnamon/backend/cinnamon_compiler.h:6226-6230 | If all that is left is blocked, no order of the instructions is valid. |
| `TopologicalSort.ValidMeans` | CinnamonCompiler/cinnamon/backend/cinnamon_compiler.h:6205-6225 | An order is valid exactly when every term that is read exists from the start or is created by an earlier instruction. |
| `TopologicalSort.Pass` | CinnamonCompiler/cinnamon/backend/cinnamon_compiler.h:6205-6225 | One pass moves ready instructions over, gains nothing only when everything left is blocked, and keeps a list that is already valid as it is. |
| `TopologicalSort.TopologicallySort` | CinnamonCompiler/cinnamon/backend/cinnamon_compiler.h:6196-6235 | Terminates; returns a permutation in a valid order, the list itself if that was valid, and fails exactly when no valid order exists. |
| `NextUse.MarkSrcs` | CinnamonCompiler/cinnamon/backend/cinnamon_compiler.h:6702-6719 | Source operands of one instruction, walked from the last, get the mark the definition gives. |
| `NextUse.MarkDests` | CinnamonCompiler/cinnamon/backend/cinnamon_compiler.h:6720-6745 | Destinations of one instruction get their marks and leave the map. |
| `NextUse.Analyse` | CinnamonCompiler/cinnamon/backend/cinnamon_compiler.h:6685-6755 | The backward walk marks every operand of the stream. |
| `NextUse.SrcMarkMeans` | CinnamonCompiler/cinnamon/backend/cinnamon_compiler.h:6702-6719 | The next use of a source is the next source occurrence of its limb in operand order; it is dead exactly when the limb is never read again. |
| `NextUse.DestMarkMeans` | CinnamonCompiler/cinnamon/backend/cinnamon_compiler.h:6720-6745 | The next use of a destination is the first use of its limb; without one it is dead unless it is an output. |
| `NextUse.DeadExactlyOnce` | CinnamonCompiler/cinnamon/backend/cinnamon_compiler.h:6685-6755 | Each limb that is read, or defined as no output, is marked dead exactly once, all others never. |
| `TermGraph.ValueUnique` | CinnamonCompiler/cinnamon/backend/keyswitch_pass.cc:38-217 | In an acyclic graph whose live terms read live terms only, a live term has at most one value; this covers rewritten graphs with dropped terms. |
| `TermGraph.MeaningKept` | CinnamonCompiler/cinnamon/backend/keyswitch_pass.cc:38-217 | If every valuation of a graph carries over to a rewritten one of that kind, then whatever values the two have agree on all live terms that did not change. |
| `KeyswitchPasses.HoistInputBroadcast` | CinnamonCompiler/cinnamon/backend/keyswitch_pass.cc:130-169 | Two rotations or more become extractions from one broadcast with their signed amounts; otherwise nothing changes. |
| `KeyswitchPasses.HoistPreserves` | CinnamonCompiler/cinnamon/backend/keyswitch_pass.cc:130-169 | Hoisting extends every valuation, and preserves the value of every term in it. |
| `KeyswitchPasses.HoistMeaning` | CinnamonCompiler/cinnamon/backend/keyswitch_pass.cc:130-169 | Whatever values the graphs before and after have agree on every live term; nothing live is dropped, and no live term reads a dropped one. |
| `KeyswitchPasses.HoistAcyclic` | CinnamonCompiler/cinnamon/backend/keyswitch_pass.cc:143-167 | The hoisted graph is acyclic again. |
| `KeyswitchPasses.MergePreserves` | CinnamonCompiler/cinnamon/backend/keyswitch_pass.cc:212-214 | Redirecting all uses of a term to one of equal value and dropping it: nobody reads it any more, only it is dropped, and whatever values the graphs before and after have agree on every live term. |
| `KeyswitchPasses.EliminateCommonReceives` | CinnamonCompiler/cinnamon/backend/keyswitch_pass.cc:178-217 | Exactly the receives that repeat the partition size and id of an earlier one are dropped; no live term reads a dropped one, the graph stays acyclic, and whatever values it has before and after agree on every live term. |
| `AdditionTrees.Lower` | CinnamonCompiler/cinnamon/backend/keyswitch_pass.cc:70-79 | Taking a vector off one addition of the tree takes it off everything above and off the root's sum, and keeps all other terms right. |
| `PullRotations.PullKeeps` | CinnamonCompiler/cinnamon/backend/keyswitch_pass.cc:70-79 | Moving a rotation from an addition to the root keeps every value outside the tree. |
| `FuseWalk.PulledSole` | CinnamonCompiler/cinnamon/backend/keyswitch_pass.cc:28-33 | Inside the tree pulling keeps the use count of every term but the absorbed addition. |
| `FuseAggregation.VisitPull` | CinnamonCompiler/cinnamon/backend/keyswitch_pass.cc:61-81 | On any graph the walk's invariant survives a pull: who is reached, the checklist and the rotations collected so far. |
| `FuseAggregation.VisitMove` | CinnamonCompiler/cinnamon/backend/keyswitch_pass.cc:64-69 | The invariant survives moving a rotation that the root uses to its end. |
| `FusePass.FusedRootRight` | CinnamonCompiler/cinnamon/backend/keyswitch_pass.cc:89-113 | The fused root with operands and signed amounts has the value of the sum. |
| `FusePass.ActsMeans` | CinnamonCompiler/cinnamon/backend/keyswitch_pass.cc:28-44 | The pass acts exactly on additions of two operands one of which is a rotation, to either side, that is read at one place of the graph only. |
| `FusePass.Absorb` | CinnamonCompiler/cinnamon/backend/keyswitch_pass.cc:89-113 | Every collected rotation is replaced by its operand and amount and dropped; other operands get amount 0. |
| `FusePass.Fuse` | CinnamonCompiler/cinnamon/backend/keyswitch_pass.cc:38-116 | On any acyclic graph the loops compute the walk and its end, FuseResult, which the following rows are about. |
| `FuseMeaning.TreeResult` | CinnamonCompiler/cinnamon/backend/keyswitch_pass.cc:38-116 | If every reached addition with a single-use rotation below is used once, inside the tree, then nobody reads a dropped term and whatever values the graphs before and after have agree on every live term outside the tree, the root included. |
| `FuseCondition.FitsTree` | CinnamonCompiler/cinnamon/backend/keyswitch_pass.cc:38-116 | A condition that a caller can compute from the graph gives the walk its tree. |
| `FuseReadings.RereadFuse` | CinnamonCompiler/cinnamon/backend/keyswitch_pass.cc:38-116 | Fusing looks only at structure: it commutes with giving the inputs other contents and the unknown operations other meanings. |
| `FuseReadings.FitsKeeps` | CinnamonCompiler/cinnamon/backend/keyswitch_pass.cc:38-116 | Under the condition every term that has to be kept stays live and keeps its value, for all inputs and all meanings of the unknown operations. |
| `FuseWeights.ValuesRight` | CinnamonCompiler/cinnamon/backend/keyswitch_pass.cc:38-116 | With all inputs one, the value of a term is the number of leaves it adds up. |
| `FuseExact.WarmLoses` | CinnamonCompiler/cinnamon/backend/keyswitch_pass.cc:70-79 | Every reached addition with a single-use rotation below is dropped or adds up fewer leaves than before. |
| `FuseExact.ReaderLoses` | CinnamonCompiler/cinnamon/backend/keyswitch_pass.cc:70-79 | So does every term below the root that reads one. |
| `FuseExact.FuseKeepsExactly` | CinnamonCompiler/cinnamon/backend/keyswitch_pass.cc:38-116 | Fusing keeps every live value but those of the tree and of absorbed rotations, for all inputs and all meanings of the unknown operations, if and only if it does nothing or every reached addition with a single-use rotation below is used once. |
| `FuseExact.DroppedOnly` | CinnamonCompiler/cinnamon/backend/keyswitch_pass.cc:70-110 | On any graph only reached additions and single-use rotations that the walk meets are dropped; every other term but the root keeps its operation. |
| `FuseExact.AllAbsorbed` | CinnamonCompiler/cinnamon/backend/keyswitch_pass.cc:89-111 | Under the condition every single-use rotation that the walk meets is absorbed. |
| `FuseExample.SharedAdditionChanges` | CinnamonCompiler/cinnamon/backend/keyswitch_pass.cc:38-116 | A graph in which the absorbed rotation and the absorbed addition are each used once, the addition above is shared, and the value of its other user changes. |

## Left out

- WordArithmetic.ModInv: requires a modulus below 2^63, because the signed steps of the code overflow beyond it.
- NttKernel.NttApplyNegacyclic: takes the roots as a parameter; the table lookup and the fallback roots for unknown moduli, which need not be roots of unity, are not modelled, and moduli are below 2^63 as `mod_add` needs.
- Bits.ReverseBits: shifts and masks of the bit loops are written as division and remainder.
- RootTables.EntryMeetsHypothesis: takes the candidate root as given; the search for a primitive root only chooses it.
- Rescale.DivideByModulus: uses the exact transform, which reduces its input, where the original calls the library's transform on residues that one subtraction has to bring into its range; the condition for that is OneSubtractionSuffices.
- KeySwitch.KeySwitchIdentity: is the step for one slot, with the extension parts and the lifted digits as parameters; KeySwitchLimbs instantiates it over whole limbs.
- KeySwitchLimbs.KeySwitchRight: takes secret keys and noise as integer polynomials and masks as arbitrary limbs; samplers and the level bookkeeping of the pipeline are not modelled.
- KeySwitch.SplitDigits: takes the digit count as input; the tables of digit counts are a finite lookup.
- Resolve.ResolveRun: starts from zeroed buffers; the text handler of the resolve instruction, which captures only its last two registers, is not modelled.
- BaseConverters.BaseConverter.Convert: moves limbs as immutable sequences; pool allocation is not modelled, and tiles are assumed to cover the coefficients, as they do for power-of-two degrees.
- PayloadKernel.Payload.ExecuteModule: keeps registers, directories, conversion units and handle data in fields next to the payload array, where the original keeps them in one array of control words; PayloadWords ties the words of the header, directories, registers and handles to those fields, but not the words of the conversion units, and registers beyond 2048 are not modelled.
- PayloadKernel.Payload.ExecuteCompute: transforms and rotations go through a buffer that is copied into the fresh range, where the original works in that range.
- PayloadKernel.Payload.StartConversion: takes conversion entries as decoded records; their bounds checks against the control words, the extra header and the persistence of active configurations between calls beyond the unit count are not modelled.
- Register-operand `sud` divides by the target's own modulus and stops with a status, as in the code; the useful form is the conversion operand.
- Instruction decoding, trace hashes, output headers, legacy dispatch and transpose kernels are plumbing without a further law.
- SyncProtocol.MergeAdd: limbs are immutable values, so the sharing of one limb between a register and `dis_value` is not visible; an empty register reads as an empty limb.
- SyncSafety.NothingLeft: says nothing of `sync_count`, in which a second broadcast visit can leave an entry behind.
- SyncEmulator.Emulator.Iterate: takes instructions as records; text parsing, thread creation and the other instructions' arithmetic are not modelled, the latter being arbitrary register updates.
- SyncIds.SetSyncIds: leaves out a chip that owns no limb of a join's result, for which the original emits a barrier instead of a join.
- SyncIds.CompiledCompletes: needs the two groups of a receive inside the group of its node, as they are when partitions are split or combined; a receive into a group outside sends to chips that never receive.
- SyncIds.CompiledWellFormed: numbers are unbounded, where the original shifts a 64-bit number by 16.
- NextUse.Analyse: works on one limb stream; the separate maps for polynomials and evaluation keys follow the same walk.
- FuseReadings.KeepsAll: is about exact values; it does not ask for the values of the absorbed additions and rotations, which are gone.
- FusePass.Fuse: scale, level and type attributes of terms are not modelled, and the use list of a term is read off the operand lists.
- Key-switch values are exact vectors; approximate encoding, decoding and rounding have no exact discrete statement.
- SEAL's transforms, random generators and memory pools are not part of the repository and enter as exact mathematics.
- Register allocation and the expansion of ciphertext operations into polynomial instructions are not modelled.
