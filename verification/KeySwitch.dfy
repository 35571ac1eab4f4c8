/** Encryptions of zero, evaluation keys and the key-switch identity, slot by slot in transform form. */
module KeySwitch {
  import opened Congruence
  import opened WordArithmetic
  import opened Rns
  import opened Rescale
  import BaseConverters

  /** A polynomial as limbs by base id. */
  type Limbs = map<nat, seq<Element>>

  ghost predicate Moduli(moduli: seq<nat>)
  {
    forall i: nat :: i < |moduli| ==> 1 < moduli[i] < LIMB
  }

  ghost predicate HasLimbs(p: Limbs, ids: seq<nat>, n: nat)
  {
    forall i: nat :: i < |ids| ==> ids[i] in p && |p[ids[i]]| == n
  }

  function Negate(x: int, q: int): (r: int)
    requires 0 <= x < q
    ensures 0 <= r < q
  {
    if x == 0 then 0 else q - x
  }

  function AddMod(x: int, y: int, q: int): int
  {
    if x + y >= q then x + y - q else x + y
  }

  // ----- encryption of zero

  /** Slot value of an encryption of zero: what decrypts to the noise. */
  ghost predicate DecryptsTo(c0: int, c1: int, s: int, message: int, q: int)
    requires q > 0
  {
    Cong(c0 + c1 * s, message, q)
  }

  lemma ZeroSlot(c1: int, s: int, e: int, q: int)
    requires q > 0 && 0 <= e < q
    ensures var c0 := AddMod(Negate((c1 * s) % q, q), e, q);
      0 <= c0 < q && DecryptsTo(c0, c1, s, e, q)
  {
    var p := (c1 * s) % q;
    var r := Negate(p, q);
    CongMod(c1 * s, q);
    if p != 0 {
      CongFrom(r, -p, 1, q);
    }
    CongSub(0, 0, p, c1 * s, q);
    if r + e >= q {
      CongFrom(r + e - q, r + e, -1, q);
    }
    CongAdd(r, -(c1 * s), e, e, q);
    CongAdd(AddMod(r, e, q), -(c1 * s) + e, c1 * s, c1 * s, q);
  }

  ghost predicate LimbDecryptsTo(c0: seq<int>, c1: seq<int>, s: seq<int>, message: seq<int>, q: int)
    requires q > 0 && |c0| == |c1| == |s| == |message|
  {
    forall j: nat :: j < |c0| ==> DecryptsTo(c0[j], c1[j], s[j], message[j], q)
  }

  ghost predicate LimbsReduced(noise: Limbs, ids: seq<nat>, moduli: seq<nat>, n: nat)
  {
    forall i: nat :: i < |ids| ==> LimbReduced(noise, ids[i], moduli, n)
  }

  ghost predicate LimbReduced(p: Limbs, id: nat, moduli: seq<nat>, n: nat)
  {
    id < |moduli| && id in p && |p[id]| == n && forall j: nat :: j < n ==> p[id][j] < moduli[id]
  }

  /** One limb of an encryption of zero: c0 = -(c1 * s) + e. */
  method ZeroLimb(c1: seq<Element>, s: seq<Element>, e: seq<Element>, q: Element) returns (c0: seq<Element>)
    requires q > 1 && |c1| == |s| == |e| && forall j: nat :: j < |e| ==> e[j] < q
    ensures |c0| == |c1| && LimbDecryptsTo(c0, c1, s, e, q) && forall j: nat :: j < |c0| ==> c0[j] < q
  {
    c0 := [];
    for j := 0 to |c1|
      invariant |c0| == j && forall k: nat :: k < j ==> c0[k] < q && DecryptsTo(c0[k], c1[k], s[k], e[k], q)
    {
      var w := (c1[j] * s[j]) % q;
      w := Negate(w, q);
      w := AddMod(w, e[j], q);
      ZeroSlot(c1[j], s[j], e[j], q);
      c0 := c0 + [w];
    }
  }

  /** Every limb of c0 + c1 * s is the noise. The mask c1 and the noise are drawn by the caller. */
  method EncryptZero(key: Limbs, c1: Limbs, noise: Limbs, ids: seq<nat>, moduli: seq<nat>, n: nat) returns (c0: Limbs)
    requires Moduli(moduli) && LimbsReduced(noise, ids, moduli, n)
    requires HasLimbs(key, ids, n) && HasLimbs(c1, ids, n)
    ensures LimbsReduced(c0, ids, moduli, n)
    ensures forall i: nat :: i < |ids| ==>
      LimbDecryptsTo(c0[ids[i]], c1[ids[i]], key[ids[i]], noise[ids[i]], moduli[ids[i]])
  {
    c0 := map[];
    for i := 0 to |ids|
      invariant forall k: nat :: k < i ==> LimbReduced(c0, ids[k], moduli, n)
      invariant forall k: nat :: k < i ==>
        LimbDecryptsTo(c0[ids[k]], c1[ids[k]], key[ids[k]], noise[ids[k]], moduli[ids[k]])
    {
      assert LimbReduced(noise, ids[i], moduli, n);
      var limb := ZeroLimb(c1[ids[i]], key[ids[i]], noise[ids[i]], moduli[ids[i]]);
      c0 := c0[ids[i] := limb];
    }
  }

  // ----- encryption and decryption

  /** Adds the message to an encryption of zero, limb by limb. */
  method Encrypt(key: Limbs, c1: Limbs, noise: Limbs, message: Limbs, ids: seq<nat>, moduli: seq<nat>, n: nat)
      returns (c0: Limbs)
    requires Moduli(moduli) && LimbsReduced(noise, ids, moduli, n) && LimbsReduced(message, ids, moduli, n)
    requires HasLimbs(key, ids, n) && HasLimbs(c1, ids, n) && forall i: nat, j: nat :: i < j < |ids| ==> ids[i] != ids[j]
    ensures LimbsReduced(c0, ids, moduli, n)
    ensures forall i: nat, j: nat :: i < |ids| && j < n ==>
      DecryptsTo(c0[ids[i]][j], c1[ids[i]][j], key[ids[i]][j], message[ids[i]][j] as int + noise[ids[i]][j], moduli[ids[i]])
  {
    hide DecryptsTo, Cong;
    c0 := EncryptZero(key, c1, noise, ids, moduli, n);
    ghost var zero := c0;
    for i := 0 to |ids|
      invariant LimbsReduced(c0, ids, moduli, n)
      invariant forall k: nat :: i <= k < |ids| ==> c0[ids[k]] == zero[ids[k]]
      invariant forall k: nat, j: nat :: k < i && j < n ==>
        DecryptsTo(c0[ids[k]][j], c1[ids[k]][j], key[ids[k]][j], message[ids[k]][j] as int + noise[ids[k]][j], moduli[ids[k]])
    {
      assert LimbReduced(message, ids[i], moduli, n) && LimbReduced(c0, ids[i], moduli, n);
      var limb := AddLimb(c0[ids[i]], message[ids[i]], moduli[ids[i]]);
      forall j: nat | j < n
        ensures DecryptsTo(limb[j], c1[ids[i]][j], key[ids[i]][j], message[ids[i]][j] as int + noise[ids[i]][j], moduli[ids[i]])
      {
        AddedSlot(limb[j], zero[ids[i]][j], c1[ids[i]][j], key[ids[i]][j], noise[ids[i]][j], message[ids[i]][j], moduli[ids[i]]);
      }
      c0 := c0[ids[i] := limb];
    }
  }

  method AddLimb(xs: seq<Element>, ys: seq<Element>, q: Element) returns (limb: seq<Element>)
    requires |xs| == |ys| && q > 0 && forall j: nat :: j < |xs| ==> xs[j] < q && ys[j] < q
    ensures |limb| == |xs| && forall j: nat :: j < |xs| ==> limb[j] < q && Cong(limb[j], xs[j] as int + ys[j], q)
  {
    limb := [];
    for j := 0 to |xs|
      invariant |limb| == j && forall k: nat :: k < j ==> limb[k] < q && Cong(limb[k], xs[k] as int + ys[k], q)
    {
      AddModRight(xs[j], ys[j], q);
      limb := limb + [AddMod(xs[j], ys[j], q)];
    }
  }

  lemma AddModRight(x: int, y: int, q: int)
    requires 0 <= x < q && 0 <= y < q
    ensures 0 <= AddMod(x, y, q) < q && Cong(AddMod(x, y, q), x + y, q)
  {
    if x + y >= q {
      CongFrom(x + y - q, x + y, -1, q);
    }
  }

  lemma AddedSlot(c: int, zero: int, c1: int, s: int, e: int, extra: int, q: int)
    requires q > 0 && DecryptsTo(zero, c1, s, e, q) && Cong(c, zero + extra, q)
    ensures DecryptsTo(c, c1, s, extra + e, q)
  {
    CongAdd(c, zero + extra, c1 * s, c1 * s, q);
    CongAdd(zero + c1 * s, e, extra, extra, q);
  }

  /** Decryption: c1 * s + c0, slot by slot. */
  function DecryptSlot(c0: int, c1: int, s: int, q: int): int
    requires q > 0
  {
    (c1 * s + c0) % q
  }

  /** What was encrypted comes back with the noise added. */
  lemma DecryptEncrypted(c0: int, c1: int, s: int, message: int, e: int, q: int)
    requires q > 0 && DecryptsTo(c0, c1, s, message + e, q)
    ensures DecryptSlot(c0, c1, s, q) == (message + e) % q
  {
    assert c1 * s + c0 == c0 + c1 * s;
  }

  // ----- evaluation keys

  /** Ids of the limbs of a key: the level, then the extension from the top of the table. */
  function KeyIds(level: nat, extension: nat, total: nat): (ids: seq<nat>)
    requires extension <= total
  {
    seq(level, i => i) + seq(extension, i requires 0 <= i < extension => total - 1 - i)
  }

  /** The extension moduli, whose product is P. */
  function ExtensionModuli(moduli: seq<nat>, extension: nat): seq<nat>
    requires extension <= |moduli|
  {
    seq(extension, i requires 0 <= i < extension => moduli[|moduli| - 1 - i])
  }

  /** A key has the limbs below the level and the topmost ones of the table, each once. */
  lemma KeyIdsAre(level: nat, extension: nat, total: nat)
    requires level + extension <= total
    ensures forall id: nat :: id in KeyIds(level, extension, total) <==> id < level || total - extension <= id < total
    ensures forall t: nat, u: nat :: t < u < level + extension ==> KeyIds(level, extension, total)[t] != KeyIds(level, extension, total)[u]
  {
    var ids := KeyIds(level, extension, total);
    forall id: nat | id < level || total - extension <= id < total
      ensures id in ids
    {
      if id < level {
        assert ids[id] == id;
      } else {
        assert ids[level + (total - 1 - id)] == id;
      }
    }
  }

  /** P is the product of the topmost moduli of the table. */
  lemma {:induction false} ExtensionIsTop(moduli: seq<nat>, extension: nat)
    requires extension <= |moduli|
    ensures BaseProduct(ExtensionModuli(moduli, extension)) == BaseProduct(moduli[|moduli| - extension..])
  {
    if extension > 0 {
      ExtensionIsTop(moduli, extension - 1);
      var rest, top := ExtensionModuli(moduli, extension - 1), moduli[|moduli| - extension..];
      assert ExtensionModuli(moduli, extension) == rest + [moduli[|moduli| - extension]];
      assert top == [moduli[|moduli| - extension]] + moduli[|moduli| - (extension - 1)..];
      BaseProductAppend(rest, [moduli[|moduli| - extension]]);
      BaseProductAppend([moduli[|moduli| - extension]], moduli[|moduli| - (extension - 1)..]);
    }
  }

  ghost predicate KeySlot(c0: int, c1: int, s: int, e: int, p: int, target: int, inDigit: bool, q: int)
    requires q > 0
  {
    DecryptsTo(c0, c1, s, if inDigit then target * p + e else e, q)
  }

  /** A limb of a key under the old key s: noise, plus P times the new key on the limbs of the digit. */
  ghost predicate KeyLimb(c0: Limbs, c1: Limbs, s: Limbs, noise: Limbs, id: nat, n: nat, p: int, target: seq<int>,
                          inDigit: bool, q: int)
  {
    && q > 0 && id in c0 && id in c1 && id in s && id in noise
    && |c0[id]| == |c1[id]| == |s[id]| == |noise[id]| == n && (inDigit ==> |target| == n)
    && forall j: nat :: j < n ==>
      KeySlot(c0[id][j], c1[id][j], s[id][j], noise[id][j], p, if inDigit then target[j] else 0, inDigit, q)
  }

  /** The key of one digit: an encryption of zero under the old key, with P times the new key added on the limbs of
      the digit. */
  method GenerateEvalKey(oldKey: Limbs, newKey: seq<seq<Element>>, c1: Limbs, noise: Limbs, level: nat, extension: nat,
                         digit: seq<nat>, moduli: seq<nat>, n: nat) returns (c0: Limbs)
    requires Moduli(moduli) && level <= |moduli| && extension <= |moduli|
    requires LimbsReduced(noise, KeyIds(level, extension, |moduli|), moduli, n)
    requires HasLimbs(oldKey, KeyIds(level, extension, |moduli|), n) && HasLimbs(c1, KeyIds(level, extension, |moduli|), n)
    requires |newKey| == |digit| && forall i: nat :: i < |digit| ==> digit[i] < level && |newKey[i]| == n
    requires forall i: nat, j: nat :: i < j < |digit| ==> digit[i] != digit[j]
    ensures forall i: nat :: i < |digit| ==>
      KeyLimb(c0, c1, oldKey, noise, digit[i], n, BaseProduct(ExtensionModuli(moduli, extension)), newKey[i], true, moduli[digit[i]])
    ensures forall t: nat :: t < level + extension && KeyIds(level, extension, |moduli|)[t] !in digit ==>
      var id := KeyIds(level, extension, |moduli|)[t];
      KeyLimb(c0, c1, oldKey, noise, id, n, BaseProduct(ExtensionModuli(moduli, extension)), [], false, moduli[id])
  {
    var ids := KeyIds(level, extension, |moduli|);
    var p := BaseProduct(ExtensionModuli(moduli, extension));
    c0 := EncryptZero(oldKey, c1, noise, ids, moduli, n);
    forall t: nat | t < |ids|
      ensures KeyLimb(c0, c1, oldKey, noise, ids[t], n, p, [], false, moduli[ids[t]])
    {
      assert LimbReduced(c0, ids[t], moduli, n) && LimbReduced(noise, ids[t], moduli, n);
    }
    for i := 0 to |digit|
      invariant forall t: nat :: t < |ids| && ids[t] !in digit[..i] ==>
        KeyLimb(c0, c1, oldKey, noise, ids[t], n, p, [], false, moduli[ids[t]])
      invariant forall k: nat :: k < i ==> KeyLimb(c0, c1, oldKey, noise, digit[k], n, p, newKey[k], true, moduli[digit[k]])
    {
      var id := digit[i];
      assert ids[id] == id;
      assert id !in digit[..i];
      var limb := MultiplyAddLimb(newKey[i], p % moduli[id], c0[id], moduli[id]);
      ghost var before := c0;
      c0 := c0[id := limb];
      KeyLimbRight(before, c0, c1, oldKey, noise, id, n, p, newKey[i], moduli[id]);
      forall k: nat | k < i
        ensures KeyLimb(c0, c1, oldKey, noise, digit[k], n, p, newKey[k], true, moduli[digit[k]])
      {
        KeyLimbKept(before, c0, c1, oldKey, noise, digit[k], n, p, newKey[k], true, moduli[digit[k]]);
      }
      forall t: nat | t < |ids| && ids[t] !in digit[..i + 1]
        ensures KeyLimb(c0, c1, oldKey, noise, ids[t], n, p, [], false, moduli[ids[t]])
      {
        assert digit[..i + 1] == digit[..i] + [id];
        KeyLimbKept(before, c0, c1, oldKey, noise, ids[t], n, p, [], false, moduli[ids[t]]);
      }
    }
    assert digit[..|digit|] == digit;
  }

  lemma KeyLimbKept(before: Limbs, c0: Limbs, c1: Limbs, s: Limbs, noise: Limbs, id: nat, n: nat, p: int, target: seq<int>,
                    inDigit: bool, q: int)
    requires KeyLimb(before, c1, s, noise, id, n, p, target, inDigit, q) && id in c0 && c0[id] == before[id]
    ensures KeyLimb(c0, c1, s, noise, id, n, p, target, inDigit, q)
  {
  }

  lemma KeyLimbRight(before: Limbs, c0: Limbs, c1: Limbs, s: Limbs, noise: Limbs, id: nat, n: nat, p: nat,
                     target: seq<int>, q: int)
    requires KeyLimb(before, c1, s, noise, id, n, p, [], false, q) && id in c0 && |c0[id]| == n == |target|
    requires forall j: nat :: j < n ==> c0[id][j] == (target[j] * (p % q) + before[id][j]) % q
    ensures KeyLimb(c0, c1, s, noise, id, n, p, target, true, q)
  {
    forall j: nat | j < n
      ensures KeySlot(c0[id][j], c1[id][j], s[id][j], noise[id][j], p, target[j], true, q)
    {
      assert KeySlot(before[id][j], c1[id][j], s[id][j], noise[id][j], p, 0, false, q);
      KeySlotRight(c0[id][j], before[id][j], c1[id][j], s[id][j], noise[id][j], p, target[j], q);
    }
  }

  method MultiplyAddLimb(xs: seq<Element>, factor: nat, acc: seq<Element>, q: Element) returns (limb: seq<Element>)
    requires |xs| == |acc| && q > 0
    ensures |limb| == |xs| && forall j: nat :: j < |xs| ==> limb[j] == (xs[j] * factor + acc[j]) % q
  {
    limb := [];
    for j := 0 to |xs|
      invariant |limb| == j && forall k: nat :: k < j ==> limb[k] == (xs[k] * factor + acc[k]) % q
    {
      limb := limb + [(xs[j] * factor + acc[j]) % q];
    }
  }

  lemma KeySlotRight(c: int, zero: int, c1: int, s: int, e: int, p: nat, target: int, q: int)
    requires q > 0 && DecryptsTo(zero, c1, s, e, q) && c == (target * (p % q) + zero) % q
    ensures KeySlot(c, c1, s, e, p, target, true, q)
  {
    CongMod(p, q);
    CongMul(target, target, p % q, p, q);
    CongMod(target * (p % q) + zero, q);
    CongAdd(target * (p % q), target * p, zero, zero, q);
    AddedSlot(c, zero, c1, s, e, target * p, q);
  }

  // ----- digits

  ghost predicate InSome(digits: seq<set<nat>>, i: nat)
  {
    exists d: nat :: d < |digits| && i in digits[d]
  }

  ghost predicate Disjoint(digits: seq<set<nat>>)
  {
    forall d: nat, e: nat :: d < e < |digits| ==> digits[d] !! digits[e]
  }

  /** Disjoint digits of at most `size` limbs that cover 0 to level - 1. */
  ghost predicate Partition(digits: seq<set<nat>>, level: nat, size: nat)
  {
    && Disjoint(digits)
    && (forall d: nat :: d < |digits| ==> 0 < |digits[d]| <= size)
    && (forall i: nat :: InSome(digits, i) <==> i < level)
  }

  /** Number of extension limbs for `count` digits. */
  function ExtensionSize(level: nat, count: nat): nat
    requires count > 0
  {
    if level % count != 0 then level / count + 1 else level / count
  }

  /** The limbs that leave remainder d modulo count. */
  ghost predicate IsLane(digit: set<nat>, d: nat, level: nat, count: nat)
    requires count > 0
  {
    forall x: nat :: x in digit <==> x < level && x % count == d
  }

  /** One digit for each remainder there is, in order. */
  ghost predicate Lanes(split: seq<set<nat>>, level: nat, count: nat, ii: nat)
    requires count > 0
  {
    (|split| == if ii < level then ii else level) && forall d: nat :: d < |split| ==> IsLane(split[d], d, level, count)
  }

  /** Limb l goes to digit l modulo count, in pieces no larger than the extension; the extension is large enough for one
      piece to hold each lane. */
  method SplitDigits(level: nat, count: nat) returns (split: seq<set<nat>>)
    requires count > 0
    ensures Partition(split, level, ExtensionSize(level, count)) && Lanes(split, level, count, count)
  {
    hide Disjoint, InSome, ExtensionSize, Before, Growing, Lanes;
    var size := ExtensionSize(level, count);
    ExtensionPositive(level, count);
    split := [];
    NothingSplit(level, count);
    NoLanes(level, count);
    var ii: nat := 0;
    while ii < count
      invariant ii <= count && Disjoint(split)
      invariant forall d: nat :: d < |split| ==> 0 < |split[d]| <= size
      invariant forall x: nat :: InSome(split, x) <==> Before(x, level, count, ii, 0)
      invariant Lanes(split, level, count, ii)
    {
      var piece: set<nat> := {};
      var filled: nat := 0;
      var l: nat := ii;
      SmallMod(ii, count);
      StartLane(ii, level, count);
      StartGrowing(split, level, count, ii);
      while l < level
        invariant l % count == ii && Disjoint(split) && |piece| == filled
        invariant level > 0 || piece != {} ==> filled < size
        invariant forall d: nat :: d < |split| ==> 0 < |split[d]| <= size && split[d] !! piece
        invariant forall x: nat :: InSome(split, x) || x in piece <==> Before(x, level, count, ii, l)
        invariant Growing(split, piece, filled, level, count, ii, l)
        decreases level - l
      {
        NextInLane(l, ii, level, count);
        NewLimb(split, piece, l);
        LaneGrows(split, piece, filled, level, count, ii, l);
        piece := piece + {l};
        filled := filled + 1;
        if filled == size {
          PushDigit(split, piece);
          LaneFull(split, piece, filled, level, count, ii, l + count);
          split := split + [piece];
          piece := {};
          filled := 0;
        }
        l := l + count;
      }
      EndLane(l, ii, level, count);
      LaneEnds(split, piece, filled, level, count, ii, l);
      if piece != {} {
        PushDigit(split, piece);
        split := split + [piece];
      }
      ii := ii + 1;
    }
    AllLanes(level, count);
    MakePartition(split, level, size);
  }

  /** Lane ii up to limb l: in the piece, or pushed as a whole. */
  ghost predicate Growing(split: seq<set<nat>>, piece: set<nat>, filled: nat, level: nat, count: nat, ii: nat, l: nat)
    requires count > 0
  {
    if |split| > 0 && ii < level && |split| == ii + 1 then
      piece == {} && l >= level && Lanes(split, level, count, ii + 1)
    else
      Lanes(split, level, count, ii) && l == ii + filled * count
      && forall x: nat :: x in piece <==> x < level && x % count == ii && x < l
  }

  lemma NoLanes(level: nat, count: nat)
    requires count > 0
    ensures Lanes([], level, count, 0)
  {
  }

  lemma StartGrowing(split: seq<set<nat>>, level: nat, count: nat, ii: nat)
    requires ii < count && Lanes(split, level, count, ii)
    ensures Growing(split, {}, 0, level, count, ii, ii)
  {
    forall x: nat | x % count == ii
      ensures x >= ii
    {
      if x < count {
        SmallMod(x, count);
      }
    }
  }

  lemma LaneGrows(split: seq<set<nat>>, piece: set<nat>, filled: nat, level: nat, count: nat, ii: nat, l: nat)
    requires ii < count && l % count == ii && l < level && Growing(split, piece, filled, level, count, ii, l)
    ensures Growing(split, piece + {l}, filled + 1, level, count, ii, l + count)
    ensures Lanes(split, level, count, ii)
  {
    assert (filled + 1) * count == filled * count + count;
    forall x: nat | x % count == ii && x < l + count
      ensures x <= l
    {
      BaseConverters.OwnLanes(l, x, count);
    }
    hide IsLane;
  }

  lemma LaneFull(split: seq<set<nat>>, piece: set<nat>, filled: nat, level: nat, count: nat, ii: nat, l: nat)
    requires ii < count && filled == ExtensionSize(level, count) && l >= count && l - count < level && Lanes(split, level, count, ii)
    requires Growing(split, piece, filled, level, count, ii, l)
    ensures ii < level ==> Growing(split + [piece], {}, 0, level, count, ii, l)
    ensures ii < level
  {
    ExtensionCovers(level, count);
    assert (filled - 1) * count == filled * count - count;
    MulSign(filled - 1, count);
    assert IsLane(piece, ii, level, count);
    hide IsLane;
  }

  lemma MulSign(a: int, b: nat)
    ensures a >= 0 ==> a * b >= 0
  {
  }

  /** The digits together have room for all limbs. */
  lemma ExtensionCovers(level: nat, count: nat)
    requires count > 0
    ensures ExtensionSize(level, count) * count >= level
  {
    var q := level / count;
    assert level == count * q + level % count;
    assert (q + 1) * count == q * count + count;
  }

  lemma EmptyLane(piece: set<nat>, ii: nat, level: nat, count: nat)
    requires level <= ii < count && IsLane(piece, ii, level, count)
    ensures piece == {}
  {
    forall x: nat
      ensures x !in piece
    {
      if x < count {
        SmallMod(x, count);
      }
    }
  }

  lemma LaneEnds(split: seq<set<nat>>, piece: set<nat>, filled: nat, level: nat, count: nat, ii: nat, l: nat)
    requires ii < count && l >= level && Growing(split, piece, filled, level, count, ii, l)
    ensures Lanes(if piece != {} then split + [piece] else split, level, count, ii + 1)
  {
    SmallMod(ii, count);
    forall x: nat | x < count
      ensures x % count == x
    {
      SmallMod(x, count);
    }
    if !(|split| > 0 && ii < level && |split| == ii + 1) {
      assert IsLane(piece, ii, level, count);
      if ii < level {
        assert ii in piece;
      } else {
        EmptyLane(piece, ii, level, count);
      }
    }
    hide IsLane;
  }

  lemma ExtensionPositive(level: nat, count: nat)
    requires count > 0
    ensures level > 0 ==> ExtensionSize(level, count) > 0
  {
    if level > 0 && level / count == 0 {
      assert level == count * 0 + level % count;
    }
  }

  lemma PushDigit(split: seq<set<nat>>, piece: set<nat>)
    requires Disjoint(split) && forall d: nat :: d < |split| ==> split[d] !! piece
    ensures Disjoint(split + [piece])
    ensures forall x: nat :: InSome(split + [piece], x) <==> InSome(split, x) || x in piece
  {
    var longer := split + [piece];
    forall x: nat | InSome(split, x) || x in piece
      ensures InSome(longer, x)
    {
      if x in piece {
        assert longer[|split|] == piece;
      } else {
        var d: nat :| d < |split| && x in split[d];
        assert longer[d] == split[d];
      }
    }
  }

  /** Limbs of the lanes before ii, and those of lane ii below l. */
  predicate Before(x: nat, level: nat, count: nat, ii: nat, l: nat)
    requires count > 0
  {
    x < level && (x % count < ii || (x % count == ii && x < l))
  }

  lemma NothingSplit(level: nat, count: nat)
    requires count > 0
    ensures Disjoint([]) && forall x: nat :: !InSome([], x) && !Before(x, level, count, 0, 0)
  {
  }

  /** No limb of the lane of ii comes before ii. */
  lemma StartLane(ii: nat, level: nat, count: nat)
    requires ii < count
    ensures forall x: nat :: Before(x, level, count, ii, ii) <==> Before(x, level, count, ii, 0)
  {
    forall x: nat | x % count == ii
      ensures x >= ii
    {
      if x < count {
        SmallMod(x, count);
      }
    }
  }

  lemma NextInLane(l: nat, ii: nat, level: nat, count: nat)
    requires ii < count && l % count == ii && l < level
    ensures (l + count) % count == ii && !Before(l, level, count, ii, l)
    ensures forall x: nat :: Before(x, level, count, ii, l + count) <==> Before(x, level, count, ii, l) || x == l
  {
    CongFrom(l + count, l, 1, count);
    forall x: nat | x % count == ii && x < l + count
      ensures x <= l
    {
      BaseConverters.OwnLanes(l, x, count);
    }
  }

  lemma EndLane(l: nat, ii: nat, level: nat, count: nat)
    requires count > 0 && l >= level
    ensures forall x: nat :: Before(x, level, count, ii, l) <==> Before(x, level, count, ii + 1, 0)
  {
  }

  lemma AllLanes(level: nat, count: nat)
    requires count > 0
    ensures forall x: nat :: Before(x, level, count, count, 0) <==> x < level
  {
  }

  lemma NewLimb(split: seq<set<nat>>, piece: set<nat>, l: nat)
    requires !InSome(split, l) && l !in piece && forall d: nat :: d < |split| ==> split[d] !! piece
    ensures |piece + {l}| == |piece| + 1 && forall d: nat :: d < |split| ==> split[d] !! piece + {l}
  {
  }

  lemma MakePartition(split: seq<set<nat>>, level: nat, size: nat)
    requires Disjoint(split) && (forall d: nat :: d < |split| ==> 0 < |split[d]| <= size) && forall x: nat :: InSome(split, x) <==> x < level
    ensures Partition(split, level, size)
  {
    hide Disjoint, InSome;
  }

  // ----- the identity

  function Dot(xs: seq<int>, ys: seq<int>, n: nat): int
    requires n <= |xs| && n <= |ys|
  {
    if n == 0 then 0 else Dot(xs, ys, n - 1) + xs[n - 1] * ys[n - 1]
  }

  /** Products of the lifted digits with one half of the key, summed modulo q. */
  function KeyProduct(ys: seq<int>, cs: seq<int>, q: int, n: nat): (r: int)
    requires q > 0 && n <= |ys| && n <= |cs|
    ensures 0 <= r < q
  {
    if n == 0 then 0 else AddMod(KeyProduct(ys, cs, q, n - 1), (ys[n - 1] * cs[n - 1]) % q, q)
  }

  lemma {:induction false} KeyProductIsDot(ys: seq<int>, cs: seq<int>, q: int, n: nat)
    requires q > 0 && n <= |ys| && n <= |cs|
    ensures Cong(KeyProduct(ys, cs, q, n), Dot(ys, cs, n), q)
  {
    if n == 0 {
    } else {
      KeyProductIsDot(ys, cs, q, n - 1);
      var t := ys[n - 1] * cs[n - 1];
      CongMod(t, q);
      AddModRight(KeyProduct(ys, cs, q, n - 1), t % q, q);
      CongAdd(KeyProduct(ys, cs, q, n - 1), Dot(ys, cs, n - 1), t % q, t, q);
    }
  }

  /** One limb position of a key switch: lifted digits, the key of every digit, its noise. */
  datatype SwitchSlot = SwitchSlot(ys: seq<int>, c0s: seq<int>, c1s: seq<int>, es: seq<int>) {
    /** The keys are those GenerateEvalKey makes, and a digit that holds limb i lifts to x there. */
    ghost predicate For(digits: seq<set<nat>>, i: nat, x: int, s: int, target: int, p: int, q: int) {
      && q > 1 && |ys| == |c0s| == |c1s| == |es| == |digits|
      && (forall d: nat :: d < |digits| ==> KeySlot(c0s[d], c1s[d], s, es[d], p, target, i in digits[d], q))
      && (forall d: nat :: d < |digits| && i in digits[d] ==> Cong(ys[d], x, q))
    }
  }

  ghost predicate SeenIn(digits: seq<set<nat>>, i: nat, n: nat)
  {
    exists d: nat :: d < n && d < |digits| && i in digits[d]
  }

  /** What the first n digits contribute. */
  lemma {:induction false} DigitsContribute(w: SwitchSlot, digits: seq<set<nat>>, i: nat, x: int, s: int, target: int, p: int, q: int,
                                            n: nat)
    requires w.For(digits, i, x, s, target, p, q) && Disjoint(digits) && n <= |digits|
    ensures Cong(Dot(w.ys, w.c0s, n) + Dot(w.ys, w.c1s, n) * s,
                 Dot(w.ys, w.es, n) + if SeenIn(digits, i, n) then x * (target * p) else 0, q)
  {
    if n == 0 {
    } else {
      var d := n - 1;
      DigitsContribute(w, digits, i, x, s, target, p, q, d);
      assert KeySlot(w.c0s[d], w.c1s[d], s, w.es[d], p, target, i in digits[d], q);
      assert i in digits[d] ==> Cong(w.ys[d], x, q);
      OnlyDigit(digits, i, d);
      hide SeenIn;
      DigitStep(Dot(w.ys, w.c0s, d), Dot(w.ys, w.c1s, d), s, Dot(w.ys, w.es, d), if SeenIn(digits, i, d) then x * (target * p) else 0,
                w.ys[d], w.c0s[d], w.c1s[d], w.es[d], p, target, i in digits[d], x, q);
    }
  }

  lemma OnlyDigit(digits: seq<set<nat>>, i: nat, d: nat)
    requires Disjoint(digits) && d < |digits|
    ensures SeenIn(digits, i, d + 1) <==> SeenIn(digits, i, d) || i in digits[d]
    ensures !(SeenIn(digits, i, d) && i in digits[d])
  {
  }

  lemma DigitStep(a: int, b: int, s: int, e: int, m: int, y: int, c0: int, c1: int, noise: int, p: int, target: int, own: bool, x: int, q: int)
    requires q > 0 && Cong(a + b * s, e + m, q)
    requires KeySlot(c0, c1, s, noise, p, target, own, q) && (own ==> Cong(y, x, q))
    ensures Cong((a + y * c0) + (b + y * c1) * s, (e + y * noise) + (m + if own then x * (target * p) else 0), q)
  {
    var message := if own then target * p + noise else noise;
    CongMul(y, y, c0 + c1 * s, message, q);
    assert y * (c0 + c1 * s) == y * c0 + (y * c1) * s;
    assert (b + y * c1) * s == b * s + (y * c1) * s;
    CongAdd(a + b * s, e + m, y * (c0 + c1 * s), y * message, q);
    if own {
      CongMul(y, x, target * p, target * p, q);
      assert y * (target * p + noise) == y * (target * p) + y * noise;
      CongAdd(y * (target * p), x * (target * p), (e + m) + y * noise, (e + m) + y * noise, q);
    }
  }

  /** Dividing by P and multiplying it back. */
  lemma DividedBack(acc: int, r: int, p: int, inverse: int, q: int)
    requires q > 1 && IsInverse(p, inverse, q)
    ensures Cong(p * DividedSlot(acc, r, inverse, q), acc - r, q)
  {
    var d := (acc - r) % q;
    CongMod(acc - r, q);
    CongMod(d * inverse, q);
    CongMul(p, p, (d * inverse) % q, d * inverse, q);
    SmallMod(1, q);
    CongMul(d, d, p * inverse, 1, q);
    Regroup(p, d, inverse);
    Associate(p, d, inverse);
  }

  /** The key-switch identity in one slot of limb i: after dividing the accumulated products by P, what decrypts under
      s is x * target, up to the noise of the keys weighted by the digits and the extension parts that were
      subtracted. */
  lemma KeySwitchIdentity(w: SwitchSlot, digits: seq<set<nat>>, level: nat, size: nat, i: nat, x: int, s: int, target: int, p: int,
                          inverse: int, q: int, r0: int, r1: int)
    requires Partition(digits, level, size) && i < level
    requires w.For(digits, i, x, s, target, p, q) && IsInverse(p, inverse, q)
    ensures var k0 := DividedSlot(KeyProduct(w.ys, w.c0s, q, |digits|), r0, inverse, q);
      var k1 := DividedSlot(KeyProduct(w.ys, w.c1s, q, |digits|), r1, inverse, q);
      Cong(p * (k0 + k1 * s), p * (x * target) + Dot(w.ys, w.es, |digits|) - (r0 + r1 * s), q)
  {
    var n := |digits|;
    var a, b := KeyProduct(w.ys, w.c0s, q, n), KeyProduct(w.ys, w.c1s, q, n);
    assert InSome(digits, i);
    assert SeenIn(digits, i, n);
    DigitsContribute(w, digits, i, x, s, target, p, q, n);
    KeyProductIsDot(w.ys, w.c0s, q, n);
    KeyProductIsDot(w.ys, w.c1s, q, n);
    DividedBack(a, r0, p, inverse, q);
    DividedBack(b, r1, p, inverse, q);
    SwitchArithmetic(a, b, Dot(w.ys, w.c0s, n), Dot(w.ys, w.c1s, n), s, Dot(w.ys, w.es, n), x, target, p, r0, r1,
                     DividedSlot(a, r0, inverse, q), DividedSlot(b, r1, inverse, q), q);
  }

  lemma SwitchArithmetic(a: int, b: int, da: int, db: int, s: int, e: int, x: int, target: int, p: int, r0: int, r1: int,
                         k0: int, k1: int, q: int)
    requires q > 0 && Cong(a, da, q) && Cong(b, db, q) && Cong(da + db * s, e + x * (target * p), q)
    requires Cong(p * k0, a - r0, q) && Cong(p * k1, b - r1, q)
    ensures Cong(p * (k0 + k1 * s), p * (x * target) + e - (r0 + r1 * s), q)
  {
    CongMul(p * k1, b - r1, s, s, q);
    CongAdd(p * k0, a - r0, (p * k1) * s, (b - r1) * s, q);
    assert p * (k0 + k1 * s) == p * k0 + (p * k1) * s;
    assert (b - r1) * s == b * s - r1 * s;
    CongMul(b, db, s, s, q);
    CongAdd(a, da, b * s, db * s, q);
    assert x * (target * p) == p * (x * target);
    CongSub(a + b * s, e + p * (x * target), r0 + r1 * s, r0 + r1 * s, q);
  }
}
