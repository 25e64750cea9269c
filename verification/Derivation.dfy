/** What child derivation promises: the retry rule, agreement of the two sides, and paths. */
module Derivation {
  import opened ByteStrings
  import opened Curves
  import opened DerivationPaths
  import opened ExtendedKeys
  import opened Networks
  import opened Wrappers
  import PublicKeys
  import Residues

  // ---- the retry rule ----

  /** The private child at this very index exists: its scalar is not zero. */
  ghost predicate Usable(lib: Library, k: Buffers, index: nat, nonCompliant: bool)
    requires lib.curve.Valid() && IsPrivate(lib, k)
  {
    ChildScalar(lib, k, PrivateData(lib, k, index, index >= HARDENED, nonCompliant)) != 0
  }

  ghost predicate FirstUsable(lib: Library, k: Buffers, start: nat, index: nat, nonCompliant: bool)
    requires lib.curve.Valid() && IsPrivate(lib, k)
  {
    && start <= index < MAX_INDEX && Usable(lib, k, index, nonCompliant)
    && forall i: nat | start <= i < index :: !Usable(lib, k, i, nonCompliant)
  }

  ghost predicate NoneUsable(lib: Library, k: Buffers, start: int, end: nat, nonCompliant: bool)
    requires lib.curve.Valid() && IsPrivate(lib, k)
  {
    forall i: nat | start <= i < end :: !Usable(lib, k, i, nonCompliant)
  }

  lemma DataAtEffective(lib: Library, k: Buffers, index: nat, hardened: bool, nonCompliant: bool)
    requires lib.curve.Valid() && IsPrivate(lib, k)
    ensures DerivePrivate(lib, k, index, hardened, nonCompliant)
         == var i := Effective(index, hardened);
            if i >= MAX_INDEX then Err(InvalidPath)
            else if Usable(lib, k, i, nonCompliant)
            then PrivateChild(lib, k, i, PrivateData(lib, k, i, i >= HARDENED, nonCompliant))
            else DerivePrivate(lib, k, i + 1, false, nonCompliant)
    ensures Effective(Effective(index, hardened) + 1, false) == Effective(index, hardened) + 1
  {}

  /** Private derivation yields the child at the first usable index from the effective one on. */
  lemma {:induction false} PrivateRetry(lib: Library, k: Buffers, index: nat, hardened: bool, nonCompliant: bool,
                                        j: nat)
    requires lib.curve.Valid() && IsPrivate(lib, k)
    requires FirstUsable(lib, k, Effective(index, hardened), j, nonCompliant)
    ensures DerivePrivate(lib, k, index, hardened, nonCompliant)
         == PrivateChild(lib, k, j, PrivateData(lib, k, j, j >= HARDENED, nonCompliant))
    decreases MAX_INDEX - Effective(index, hardened)
  {
    hide Usable, DerivePrivate, PrivateChild, PrivateData, IsPrivate;
    var start := Effective(index, hardened);
    DataAtEffective(lib, k, index, hardened, nonCompliant);
    if start < j {
      PrivateRetry(lib, k, start + 1, false, nonCompliant, j);
    }
  }

  /** It fails exactly when no index up to the last is usable, the network permitting. */
  lemma {:induction false} PrivateExhausted(lib: Library, k: Buffers, index: nat, hardened: bool, nonCompliant: bool)
    requires lib.curve.Valid() && IsPrivate(lib, k)
    ensures DerivePrivate(lib, k, index, hardened, nonCompliant) == Err(InvalidPath)
       <==> NoneUsable(lib, k, Effective(index, hardened), MAX_INDEX, nonCompliant)
    decreases MAX_INDEX - Effective(index, hardened)
  {
    hide Usable, DerivePrivate, PrivateChild, PrivateData, IsPrivate;
    var start := Effective(index, hardened);
    DataAtEffective(lib, k, index, hardened, nonCompliant);
    if start < MAX_INDEX {
      if Usable(lib, k, start, nonCompliant) {
        UsableChild(lib, k, start, nonCompliant);
      } else {
        PrivateExhausted(lib, k, start + 1, false, nonCompliant);
      }
    }
  }

  lemma UsableChild(lib: Library, k: Buffers, index: nat, nonCompliant: bool)
    requires lib.curve.Valid() && IsPrivate(lib, k) && index < MAX_INDEX && Usable(lib, k, index, nonCompliant)
    ensures var child := PrivateChild(lib, k, index, PrivateData(lib, k, index, index >= HARDENED, nonCompliant));
      if child.Ok? then IsPrivate(lib, child.value) && child.value.Index() == index else child == Err(BadNetwork)
  {
    PrivateChildIsPrivate(lib, k, index, PrivateData(lib, k, index, index >= HARDENED, nonCompliant));
  }

  /** What one request does: the first hash, and where the retry goes on from if it is unusable. */
  lemma FirstTry(lib: Library, k: Buffers, index: int, hardened: bool, nonCompliant: bool)
    requires lib.curve.Valid() && IsPrivate(lib, k)
    ensures DerivePrivate(lib, k, index, hardened, nonCompliant)
         == var i := Effective(index, hardened);
            if !(0 <= i < MAX_INDEX) then Err(InvalidPath)
            else
              var data := PrivateData(lib, k, i, index >= HARDENED || hardened, nonCompliant);
              if ChildScalar(lib, k, data) == 0 then DerivePrivate(lib, k, i + 1, false, nonCompliant)
              else PrivateChild(lib, k, i, data)
  {}

  /** Whatever is asked for, the child's index is at or after the effective one. */
  lemma {:induction false} NeverGoesBack(lib: Library, k: Buffers, index: int, hardened: bool, nonCompliant: bool)
    requires lib.curve.Valid() && IsPrivate(lib, k) && DerivePrivate(lib, k, index, hardened, nonCompliant).Ok?
    ensures IsPrivate(lib, DerivePrivate(lib, k, index, hardened, nonCompliant).value)
    ensures 0 <= Effective(index, hardened) <= DerivePrivate(lib, k, index, hardened, nonCompliant).value.Index()
         < MAX_INDEX
    decreases MAX_INDEX - Effective(index, hardened)
  {
    hide DerivePrivate, PrivateChild, PrivateData, IsPrivate, ChildScalar, lib.curve.Valid;
    FirstTry(lib, k, index, hardened, nonCompliant);
    var i := Effective(index, hardened);
    var data := PrivateData(lib, k, i, index >= HARDENED || hardened, nonCompliant);
    if ChildScalar(lib, k, data) == 0 {
      NeverGoesBack(lib, k, i + 1, false, nonCompliant);
    } else {
      PrivateChildIsPrivate(lib, k, i, data);
    }
  }

  /** A plain request gives a hardened child exactly when no plain index from there on is usable. */
  lemma {:induction false} CrossesWhenExhausted(lib: Library, k: Buffers, start: nat, nonCompliant: bool)
    requires lib.curve.Valid() && IsPrivate(lib, k) && DerivePrivate(lib, k, start, false, nonCompliant).Ok?
    ensures DerivePrivate(lib, k, start, false, nonCompliant).value.Index() >= HARDENED
       <==> NoneUsable(lib, k, start, HARDENED, nonCompliant)
    decreases HARDENED - start
  {
    hide Usable, DerivePrivate, PrivateChild, PrivateData, IsPrivate, lib.curve.Valid;
    if start >= HARDENED {
      NeverGoesBack(lib, k, start, false, nonCompliant);
    } else {
      DataAtEffective(lib, k, start, false, nonCompliant);
      if Usable(lib, k, start, nonCompliant) {
        UsableChild(lib, k, start, nonCompliant);
      } else {
        CrossesWhenExhausted(lib, k, start + 1, nonCompliant);
      }
    }
  }

  /**
   * When a hardened request gives a hardened child. A negative index passes the bounds check once the
   * offset is added: its first hash input is hardened, but the index it is recorded under is plain,
   * and the retry goes on with plain hash inputs. The child is hardened then only if all of these fail.
   */
  lemma HardenedRequest(lib: Library, k: Buffers, index: int, nonCompliant: bool)
    requires lib.curve.Valid() && IsPrivate(lib, k) && DerivePrivate(lib, k, index, true, nonCompliant).Ok?
    ensures index >= -HARDENED
    ensures DerivePrivate(lib, k, index, true, nonCompliant).value.Index() >= HARDENED
       <==> index >= 0
            || (ChildScalar(lib, k, PrivateData(lib, k, index + HARDENED, true, nonCompliant)) == 0
                && NoneUsable(lib, k, index + HARDENED + 1, HARDENED, nonCompliant))
  {
    hide Usable, DerivePrivate, PrivateChild, PrivateData, IsPrivate, ChildScalar, lib.curve.Valid;
    NeverGoesBack(lib, k, index, true, nonCompliant);
    if index < 0 {
      FirstTry(lib, k, index, true, nonCompliant);
      var data := PrivateData(lib, k, index + HARDENED, true, nonCompliant);
      if ChildScalar(lib, k, data) == 0 {
        CrossesWhenExhausted(lib, k, index + HARDENED + 1, nonCompliant);
      } else {
        PrivateChildIsPrivate(lib, k, index + HARDENED, data);
      }
    }
  }

  ghost predicate PublicUsable(lib: Library, pub: Buffers, index: nat)
    requires lib.curve.Valid() && IsPublic(lib, pub)
  {
    ChildPoint(lib, pub, PublicData(lib, pub, index)).Affine?
  }

  ghost predicate FirstPublicUsable(lib: Library, pub: Buffers, start: nat, index: nat)
    requires lib.curve.Valid() && IsPublic(lib, pub)
  {
    && start <= index < HARDENED && PublicUsable(lib, pub, index)
    && forall i: nat | start <= i < index :: !PublicUsable(lib, pub, i)
  }

  lemma PublicStep(lib: Library, pub: Buffers, index: nat)
    requires lib.curve.Valid() && IsPublic(lib, pub)
    ensures DerivePublic(lib, pub, index, false)
         == if index >= HARDENED then Err(CantDeriveHardened)
            else if PublicUsable(lib, pub, index) then PublicChild(lib, pub, index, PublicData(lib, pub, index))
            else DerivePublic(lib, pub, index + 1, false)
  {}

  /** The same rule on the public side, below the hardened half. */
  lemma {:induction false} PublicRetry(lib: Library, pub: Buffers, index: nat, j: nat)
    requires lib.curve.Valid() && IsPublic(lib, pub) && FirstPublicUsable(lib, pub, index, j)
    ensures DerivePublic(lib, pub, index, false) == PublicChild(lib, pub, j, PublicData(lib, pub, j))
    decreases HARDENED - index
  {
    hide PublicUsable, DerivePublic, PublicChild, PublicData, IsPublic, lib.curve.Valid;
    PublicStep(lib, pub, index);
    if index < j {
      PublicRetry(lib, pub, index + 1, j);
    }
  }

  lemma PublicUsableChild(lib: Library, pub: Buffers, index: nat)
    requires lib.curve.Valid() && IsPublic(lib, pub) && PublicUsable(lib, pub, index)
    ensures var child := PublicChild(lib, pub, index, PublicData(lib, pub, index));
      child.Ok? || child == Err(BadNetwork)
  {
    hide PublicChild, PublicData, IsPublic;
    PublicChildIsPublic(lib, pub, index, PublicData(lib, pub, index));
  }

  lemma {:induction false} PublicExhausted(lib: Library, pub: Buffers, index: nat)
    requires lib.curve.Valid() && IsPublic(lib, pub)
    ensures DerivePublic(lib, pub, index, false) == Err(CantDeriveHardened)
       <==> forall i: nat | index <= i < HARDENED :: !PublicUsable(lib, pub, i)
    decreases HARDENED - index
  {
    hide PublicUsable, DerivePublic, PublicChild, PublicData, IsPublic, lib.curve.Valid;
    PublicStep(lib, pub, index);
    if index < HARDENED {
      if PublicUsable(lib, pub, index) {
        PublicUsableChild(lib, pub, index);
      } else {
        PublicExhausted(lib, pub, index + 1);
      }
    }
  }

  // ---- the two sides agree ----

  /** `pub` is the public half of `k`, network version aside. */
  ghost predicate Matches(lib: Library, k: Buffers, pub: Buffers)
    requires lib.curve.Valid() && IsPrivate(lib, k)
  {
    pub == k.(version := pub.version, key := PublicBytes(lib, k)) && |pub.version| == 4
  }

  lemma MatchIsPublic(lib: Library, k: Buffers, pub: Buffers)
    requires lib.curve.Valid() && IsPrivate(lib, k) && Matches(lib, k, pub)
    ensures IsPublic(lib, pub) && PublicPoint(lib, pub) == PointOf(lib, k)
  {
    CompressedIsPublic(lib, pub, PointOf(lib, k));
  }

  lemma PointIsMultiple(lib: Library, k: Buffers)
    requires lib.curve.Valid() && IsPrivate(lib, k)
    ensures PointOf(lib, k) == lib.curve.MulG(k.Scalar())
  {}

  /** At one plain index both sides hash the same bytes and reach the same point. */
  lemma SamePoint(lib: Library, k: Buffers, pub: Buffers, index: nat, nonCompliant: bool)
    requires lib.curve.Valid() && IsPrivate(lib, k) && Matches(lib, k, pub) && IsPublic(lib, pub)
    requires PublicPoint(lib, pub) == PointOf(lib, k)
    ensures PublicData(lib, pub, index) == PrivateData(lib, k, index, false, nonCompliant)
    ensures ChildPoint(lib, pub, PublicData(lib, pub, index))
         == lib.curve.MulG(ChildScalar(lib, k, PrivateData(lib, k, index, false, nonCompliant)))
  {
    hide PublicPoint, PointOf, IsPublic, IsPrivate, FromBE, ToBE, PublicKeys.Compress, Library.LeftPart;
    hide lib.curve.On, lib.curve.MulG, lib.curve.Times, lib.curve.PrimeField, lib.curve.AddsPoints;
    PointIsMultiple(lib, k);
    MulGAdds(lib.curve, lib.LeftPart(PublicData(lib, pub, index), k.chainCode), k.Scalar());
  }

  lemma SameUsable(lib: Library, k: Buffers, pub: Buffers, index: nat, nonCompliant: bool)
    requires lib.curve.Valid() && IsPrivate(lib, k) && Matches(lib, k, pub) && IsPublic(lib, pub)
    requires PublicPoint(lib, pub) == PointOf(lib, k) && index < HARDENED
    ensures PublicUsable(lib, pub, index) <==> Usable(lib, k, index, nonCompliant)
  {
    SamePoint(lib, k, pub, index, nonCompliant);
    var s := ChildScalar(lib, k, PrivateData(lib, k, index, false, nonCompliant));
    MulGInfinity(lib.curve, s);
  }

  lemma PrivateChildFields(lib: Library, k: Buffers, index: nat, data: Bytes)
    requires lib.curve.Valid() && IsPrivate(lib, k) && PrivateChild(lib, k, index, data).Ok?
    ensures var child := PrivateChild(lib, k, index, data).value;
      && |k.depth| == 1 && child.depth == [(k.depth[0] as int + 1) % 256]
      && child.parentFingerPrint == lib.FingerPrint(PublicBytes(lib, k)) && child.childIndex == ToBE(index, 4)
      && child.chainCode == lib.RightPart(data, k.chainCode) && child.key == ToBE(ChildScalar(lib, k, data), 32)
  {
    hide PublicBytes, ChildScalar, ToBE, FromBE, NetworkOf, VersionOf, lib.curve.Valid;
  }

  lemma PublicChildFields(lib: Library, pub: Buffers, index: nat, data: Bytes)
    requires lib.curve.Valid() && IsPublic(lib, pub)
    requires ChildPoint(lib, pub, data).Affine? && PublicChild(lib, pub, index, data).Ok?
    ensures var child := PublicChild(lib, pub, index, data).value;
      && |pub.depth| == 1 && child.depth == [(pub.depth[0] as int + 1) % 256] && |child.version| == 4
      && child.parentFingerPrint == lib.FingerPrint(PublicKeys.Compress(PublicPoint(lib, pub)))
      && child.childIndex == ToBE(index, 4) && child.chainCode == lib.RightPart(data, pub.chainCode)
      && child.key == PublicKeys.Compress(ChildPoint(lib, pub, data))
  {
    hide PublicPoint, ChildPoint, PublicKeys.Compress, PublicKeys.FromDER, ToBE, FromBE, NetworkOf, VersionOf,
         lib.curve.Valid;
  }

  lemma SameChild(lib: Library, k: Buffers, pub: Buffers, index: nat, data: Bytes)
    requires lib.curve.Valid() && IsPrivate(lib, k) && Matches(lib, k, pub) && IsPublic(lib, pub)
    requires PublicPoint(lib, pub) == PointOf(lib, k) && index < HARDENED
    requires ChildPoint(lib, pub, data) == lib.curve.MulG(ChildScalar(lib, k, data))
    requires ChildPoint(lib, pub, data).Affine?
    requires PrivateChild(lib, k, index, data).Ok? && PublicChild(lib, pub, index, data).Ok?
    requires IsPrivate(lib, PrivateChild(lib, k, index, data).value)
    requires PrivateChild(lib, k, index, data).value.Scalar() == ChildScalar(lib, k, data)
    ensures Matches(lib, PrivateChild(lib, k, index, data).value, PublicChild(lib, pub, index, data).value)
  {
    hide PrivateChild, PublicChild, ChildPoint, ChildScalar, PublicPoint, IsPrivate, IsPublic, PublicKeys.Compress,
         ToBE, lib.curve.Valid;
    PrivateChildFields(lib, k, index, data);
    PublicChildFields(lib, pub, index, data);
    PointIsMultiple(lib, PrivateChild(lib, k, index, data).value);
    SameBytes(lib, k, pub);
  }

  lemma SameBytes(lib: Library, k: Buffers, pub: Buffers)
    requires lib.curve.Valid() && IsPrivate(lib, k) && IsPublic(lib, pub) && PublicPoint(lib, pub) == PointOf(lib, k)
    ensures PublicKeys.Compress(PublicPoint(lib, pub)) == PublicBytes(lib, k)
  {}

  lemma UsableMatches(lib: Library, k: Buffers, pub: Buffers, index: nat, nonCompliant: bool)
    requires lib.curve.Valid() && IsPrivate(lib, k) && Matches(lib, k, pub) && IsPublic(lib, pub)
    requires PublicPoint(lib, pub) == PointOf(lib, k) && index < HARDENED
    requires Usable(lib, k, index, nonCompliant) && PublicUsable(lib, pub, index)
    ensures var child := PrivateChild(lib, k, index, PrivateData(lib, k, index, false, nonCompliant));
      var pubChild := PublicChild(lib, pub, index, PublicData(lib, pub, index));
      child.Ok? && pubChild.Ok? ==> IsPrivate(lib, child.value) && Matches(lib, child.value, pubChild.value)
  {
    var data := PrivateData(lib, k, index, false, nonCompliant);
    SamePoint(lib, k, pub, index, nonCompliant);
    PrivateChildIsPrivate(lib, k, index, data);
    if PrivateChild(lib, k, index, data).Ok? && PublicChild(lib, pub, index, data).Ok? {
      SameChild(lib, k, pub, index, data);
    }
  }

  /** One step, whatever the network registry holds: where both sides give a child, the children match. */
  lemma {:induction false} StepMatches(lib: Library, k: Buffers, pub: Buffers, index: nat, nonCompliant: bool)
    requires lib.curve.Valid() && IsPrivate(lib, k) && Matches(lib, k, pub) && IsPublic(lib, pub)
    requires DerivePublic(lib, pub, index, false).Ok? && DerivePrivate(lib, k, index, false, nonCompliant).Ok?
    ensures IsPrivate(lib, DerivePrivate(lib, k, index, false, nonCompliant).value)
    ensures Matches(lib, DerivePrivate(lib, k, index, false, nonCompliant).value,
                    DerivePublic(lib, pub, index, false).value)
    decreases HARDENED - index
  {
    hide Usable, PublicUsable, DerivePrivate, DerivePublic, PrivateChild, PublicChild, PrivateData, PublicData,
         IsPrivate, IsPublic, Matches, lib.curve.Valid;
    MatchIsPublic(lib, k, pub);
    InPlainHalf(lib, pub, index);
    DataAtEffective(lib, k, index, false, nonCompliant);
    PublicStep(lib, pub, index);
    SameUsable(lib, k, pub, index, nonCompliant);
    if Usable(lib, k, index, nonCompliant) {
      UsableMatches(lib, k, pub, index, nonCompliant);
    } else {
      StepMatches(lib, k, pub, index + 1, nonCompliant);
    }
  }

  lemma InPlainHalf(lib: Library, pub: Buffers, index: nat)
    requires lib.curve.Valid() && IsPublic(lib, pub) && DerivePublic(lib, pub, index, false).Ok?
    ensures index < HARDENED
  {}

  /** The network of a version is the one its own two version numbers lead back to. */
  ghost predicate Consistent(lib: Library, version: Bytes) {
    var network := NetworkOf(lib, version);
    var priv, pub := VersionOf(network, "xprivkey"), VersionOf(network, "xpubkey");
    && priv.Some? && pub.Some?
    && NetworkOf(lib, priv.value) == network && NetworkOf(lib, pub.value) == network
  }

  /** The network added last answers to both its version numbers, so its keys neuter consistently. */
  lemma LastAddedIsConsistent(lib: Library, reg: Registry, data: map<string, Field>, indexBy: seq<string>, key: string)
    requires lib.networks == reg.AfterAdd(data, indexBy)
    requires key in ["xprivkey", "xpubkey"]
    requires forall k | k in ["xprivkey", "xpubkey"] ::
      k in indexBy && k in data && data[k].Number? && data[k].n < 0x1_0000_0000
    ensures Consistent(lib, ToBE(data[key].n, 4))
  {
    CopiedIsKept(data, "xprivkey");
    CopiedIsKept(data, "xpubkey");
    AnswersTo(lib, reg, data, indexBy, "xprivkey");
    AnswersTo(lib, reg, data, indexBy, "xpubkey");
  }

  lemma AnswersTo(lib: Library, reg: Registry, data: map<string, Field>, indexBy: seq<string>, key: string)
    requires lib.networks == reg.AfterAdd(data, indexBy) && key in indexBy
    requires key in FieldsOf(data) && FieldsOf(data)[key].Number? && FieldsOf(data)[key].n < 0x1_0000_0000
    ensures NetworkOf(lib, ToBE(FieldsOf(data)[key].n, 4)) == Some(reg.Added(data))
  {
    hide FieldsOf, FromBE, ToBE;
    var n := FieldsOf(data)[key].n;
    Powers();
    BigEndianRoundTrip(n, 4);
    assert Number(n).Key() in IndexKeys(reg.Added(data), indexBy);
  }

  predicate TakesOver(lib: Library, data: map<string, Field>, indexBy: seq<string>, version: Bytes) {
    Number(FromBE(version)).Key() in IndexKeys(lib.networks.Added(data), indexBy)
  }

  /** A network added later leaves a network's keys consistent unless it takes over one of their versions. */
  lemma LaterAddKeepsConsistent(lib: Library, data: map<string, Field>, indexBy: seq<string>, version: Bytes)
    requires Consistent(lib, version) && !TakesOver(lib, data, indexBy, version)
    requires forall key | key in ["xprivkey", "xpubkey"] ::
      !TakesOver(lib, data, indexBy, VersionOf(NetworkOf(lib, version), key).value)
    ensures var later := lib.(networks := lib.networks.AfterAdd(data, indexBy));
      Consistent(later, version) && NetworkOf(later, version) == NetworkOf(lib, version)
  {
    hide IndexKeys, FieldsOf, FromBE, ToBE;
    var keys := ["xprivkey", "xpubkey"];
    assert keys[0] in keys && keys[1] in keys;
  }

  lemma NeuterMatches(lib: Library, k: Buffers)
    requires lib.curve.Valid() && IsPrivate(lib, k) && Consistent(lib, k.version)
    ensures Neuter(lib, k) == Ok(k.(version := VersionOf(NetworkOf(lib, k.version), "xpubkey").value,
                                    key := PublicBytes(lib, k)))
    ensures Matches(lib, k, Neuter(lib, k).value) && IsPublic(lib, Neuter(lib, k).value)
    ensures PublicPoint(lib, Neuter(lib, k).value) == PointOf(lib, k)
    ensures NetworkOf(lib, Neuter(lib, k).value.version) == NetworkOf(lib, k.version)
  {
    var b := k.(version := VersionOf(NetworkOf(lib, k.version), "xpubkey").value, key := PublicBytes(lib, k));
    CompressedIsPublic(lib, b, PointOf(lib, k));
  }

  lemma NetworkKept(lib: Library, parent: Buffers, versionKey: string, publicBytes: Bytes, index: nat,
                    chainCode: Bytes, key: Bytes, version: Bytes)
    requires |parent.depth| == 1 && Consistent(lib, version)
    requires NetworkOf(lib, parent.version) == NetworkOf(lib, version)
    requires versionKey == "xprivkey" || versionKey == "xpubkey"
    ensures var child := ChildBuffers(lib, parent, versionKey, publicBytes, index, chainCode, key);
      child.Ok? && NetworkOf(lib, child.value.version) == NetworkOf(lib, version)
      && Consistent(lib, child.value.version)
  {}

  /** The usable case of one step: both children exist, they match, and both stay on the network. */
  lemma UsableStep(lib: Library, k: Buffers, pub: Buffers, index: nat, nonCompliant: bool)
    requires lib.curve.Valid() && IsPrivate(lib, k) && Consistent(lib, k.version)
    requires Neuter(lib, k) == Ok(pub) && IsPublic(lib, pub)
    requires index < HARDENED && Usable(lib, k, index, nonCompliant)
    ensures PublicUsable(lib, pub, index)
    ensures var data := PrivateData(lib, k, index, false, nonCompliant);
      var child := PrivateChild(lib, k, index, data);
      && child.Ok? && IsPrivate(lib, child.value) && child.value.Index() == index
      && Consistent(lib, child.value.version)
      && Neuter(lib, child.value) == PublicChild(lib, pub, index, PublicData(lib, pub, index))
  {
    hide DerivePrivate, DerivePublic, FromBE, ToBE, PublicKeys.Compress;
    var data := PrivateData(lib, k, index, false, nonCompliant);
    NeuterMatches(lib, k);
    SameUsable(lib, k, pub, index, nonCompliant);
    SamePoint(lib, k, pub, index, nonCompliant);
    PrivateChildIsPrivate(lib, k, index, data);
    PublicChildIsPublic(lib, pub, index, data);
    NetworkKept(lib, k, "xprivkey", PublicBytes(lib, k), index, lib.RightPart(data, k.chainCode),
                ToBE(ChildScalar(lib, k, data), 32), k.version);
    NetworkKept(lib, pub, "xpubkey", PublicBytes(lib, k), index, lib.RightPart(data, k.chainCode),
                PublicKeys.Compress(ChildPoint(lib, pub, data)), k.version);
    SameChild(lib, k, pub, index, data);
    NeuterMatches(lib, PrivateChild(lib, k, index, data).value);
  }

  /**
   * One step: public derivation from the neutered key is the neutered private child, unless the
   * private side had to skip into the hardened half; then it is refused.
   */
  ghost predicate StepAgrees(lib: Library, k: Buffers, pub: Buffers, index: nat, nonCompliant: bool)
    requires lib.curve.Valid() && IsPrivate(lib, k) && IsPublic(lib, pub)
  {
    var child := DerivePrivate(lib, k, index, false, nonCompliant);
    if child.Ok? && child.value.Index() < HARDENED
    then IsPrivate(lib, child.value) && Consistent(lib, child.value.version)
         && DerivePublic(lib, pub, index, false) == Neuter(lib, child.value)
    else DerivePublic(lib, pub, index, false) == Err(CantDeriveHardened)
  }

  lemma SkipAgrees(lib: Library, k: Buffers, pub: Buffers, index: nat, nonCompliant: bool)
    requires lib.curve.Valid() && IsPrivate(lib, k) && IsPublic(lib, pub) && index < HARDENED
    requires !Usable(lib, k, index, nonCompliant) && !PublicUsable(lib, pub, index)
    requires StepAgrees(lib, k, pub, index + 1, nonCompliant)
    ensures StepAgrees(lib, k, pub, index, nonCompliant)
  {
    hide Usable, PublicUsable, DerivePrivate, DerivePublic, PrivateChild, PublicChild, Neuter, IsPrivate, IsPublic,
         Consistent;
    DataAtEffective(lib, k, index, false, nonCompliant);
    PublicStep(lib, pub, index);
  }

  lemma UsableAgrees(lib: Library, k: Buffers, pub: Buffers, index: nat, nonCompliant: bool)
    requires lib.curve.Valid() && IsPrivate(lib, k) && Consistent(lib, k.version)
    requires Neuter(lib, k) == Ok(pub) && IsPublic(lib, pub)
    requires index < HARDENED && Usable(lib, k, index, nonCompliant)
    ensures StepAgrees(lib, k, pub, index, nonCompliant)
  {
    hide Usable, PublicUsable, DerivePrivate, DerivePublic, PrivateChild, PublicChild, Neuter, IsPrivate, IsPublic,
         Consistent;
    UsableStep(lib, k, pub, index, nonCompliant);
    DataAtEffective(lib, k, index, false, nonCompliant);
    PublicStep(lib, pub, index);
  }

  lemma EndAgrees(lib: Library, k: Buffers, pub: Buffers, nonCompliant: bool)
    requires lib.curve.Valid() && IsPrivate(lib, k) && IsPublic(lib, pub)
    ensures StepAgrees(lib, k, pub, HARDENED, nonCompliant)
  {
    hide DerivePrivate, Neuter, IsPrivate, IsPublic, Consistent;
    if DerivePrivate(lib, k, HARDENED, false, nonCompliant).Ok? {
      NeverGoesBack(lib, k, HARDENED, false, nonCompliant);
    }
  }

  lemma {:induction false} StepCommutes(lib: Library, k: Buffers, pub: Buffers, index: nat, nonCompliant: bool)
    requires lib.curve.Valid() && IsPrivate(lib, k) && Consistent(lib, k.version)
    requires Neuter(lib, k) == Ok(pub) && IsPublic(lib, pub) && index <= HARDENED
    ensures StepAgrees(lib, k, pub, index, nonCompliant)
    decreases HARDENED - index
  {
    hide *;
    if index == HARDENED {
      EndAgrees(lib, k, pub, nonCompliant);
    } else if Usable(lib, k, index, nonCompliant) {
      UsableAgrees(lib, k, pub, index, nonCompliant);
    } else {
      NeuterMatches(lib, k);
      SameUsable(lib, k, pub, index, nonCompliant);
      StepCommutes(lib, k, pub, index + 1, nonCompliant);
      SkipAgrees(lib, k, pub, index, nonCompliant);
    }
  }

  // ---- what a child is made of ----

  /**
   * What a private child is: version of the network, depth and fingerprint; the digest is keyed with
   * the parent's chain code, its right half is the child's chain code, and its left half is added to
   * the parent scalar.
   */
  ghost predicate IsChild(lib: Library, k: Buffers, child: Buffers, index: nat, data: Bytes)
    requires lib.curve.Valid() && IsPrivate(lib, k)
  {
    var digest := ToBE(lib.hmac512(data, k.chainCode), 64);
    && Some(child.version) == VersionOf(NetworkOf(lib, k.version), "xprivkey")
    && |k.depth| == 1 && child.depth == [(k.depth[0] as int + 1) % 256]
    && child.parentFingerPrint == ToBE(lib.hash160(PublicBytes(lib, k)), 20)[..4]
    && child.Index() == index
    && child.chainCode == digest[32..]
    && child.Scalar() == (FromBE(digest[..32]) + k.Scalar()) % lib.curve.n
  }

  lemma PrivateChildIs(lib: Library, k: Buffers, index: nat, data: Bytes)
    requires lib.curve.Valid() && IsPrivate(lib, k) && index < MAX_INDEX && ChildScalar(lib, k, data) != 0
    requires PrivateChild(lib, k, index, data).Ok?
    ensures IsChild(lib, k, PrivateChild(lib, k, index, data).value, index, data)
  {
    hide PrivateChild, IsPrivate, ChildScalar, PublicBytes, ToBE, FromBE, NetworkOf, VersionOf, lib.curve.Valid;
    PositiveOrder(lib);
    PrivateChildFields(lib, k, index, data);
    PrivateChildIsPrivate(lib, k, index, data);
    PrivateChildVersion(lib, k, index, data);
    ScalarIsSum(lib, k, data);
  }

  lemma PositiveOrder(lib: Library)
    requires lib.curve.Valid()
    ensures lib.curve.n > 0
  {
    hide lib.curve.PrimeField, lib.curve.AddsPoints, lib.curve.On, lib.curve.Times;
  }

  lemma ScalarIsSum(lib: Library, k: Buffers, data: Bytes)
    requires lib.curve.n > 0
    ensures ChildScalar(lib, k, data)
         == (FromBE(ToBE(lib.hmac512(data, k.chainCode), 64)[..32]) + k.Scalar()) % lib.curve.n
  {
    hide ToBE, FromBE;
    Residues.ResidueIs(lib.LeftPart(data, k.chainCode) + k.Scalar(), lib.curve.n);
  }

  lemma PrivateChildVersion(lib: Library, k: Buffers, index: nat, data: Bytes)
    requires lib.curve.Valid() && IsPrivate(lib, k) && PrivateChild(lib, k, index, data).Ok?
    ensures Some(PrivateChild(lib, k, index, data).value.version) == VersionOf(NetworkOf(lib, k.version), "xprivkey")
  {
    hide PublicBytes, ChildScalar, ToBE, FromBE, NetworkOf, VersionOf, lib.curve.Valid;
  }

  /** So derivation gives the child of the first usable index (BIP 32, private parent key to private child key). */
  lemma DerivedChildIs(lib: Library, k: Buffers, index: nat, hardened: bool, nonCompliant: bool, j: nat)
    requires lib.curve.Valid() && IsPrivate(lib, k) && DerivePrivate(lib, k, index, hardened, nonCompliant).Ok?
    requires FirstUsable(lib, k, Effective(index, hardened), j, nonCompliant)
    ensures IsChild(lib, k, DerivePrivate(lib, k, index, hardened, nonCompliant).value, j,
                    PrivateData(lib, k, j, j >= HARDENED, nonCompliant))
  {
    PrivateRetry(lib, k, index, hardened, nonCompliant, j);
    UsableScalar(lib, k, j, nonCompliant);
    hide DerivePrivate, PrivateChild, PrivateData, IsPrivate, ChildScalar, Usable, IsChild, lib.curve.Valid;
    PrivateChildIs(lib, k, j, PrivateData(lib, k, j, j >= HARDENED, nonCompliant));
  }

  lemma UsableScalar(lib: Library, k: Buffers, j: nat, nonCompliant: bool)
    requires lib.curve.Valid() && IsPrivate(lib, k) && Usable(lib, k, j, nonCompliant)
    ensures ChildScalar(lib, k, PrivateData(lib, k, j, j >= HARDENED, nonCompliant)) != 0
  {
    hide ChildScalar, PrivateData, IsPrivate, lib.curve.Valid;
  }

  /** The public child at one index: the same digest, and the point of its left half added to the parent point. */
  lemma PublicChildIs(lib: Library, pub: Buffers, index: nat)
    requires lib.curve.Valid() && IsPublic(lib, pub) && index < HARDENED && PublicUsable(lib, pub, index)
    requires DerivePublic(lib, pub, index, false).Ok?
    ensures var child := DerivePublic(lib, pub, index, false).value;
      var digest := ToBE(lib.hmac512(pub.key + ToBE(index, 4), pub.chainCode), 64);
      && Some(child.version) == VersionOf(NetworkOf(lib, pub.version), "xpubkey")
      && |pub.depth| == 1 && child.depth == [(pub.depth[0] as int + 1) % 256]
      && child.parentFingerPrint == ToBE(lib.hash160(pub.key), 20)[..4]
      && child.Index() == index
      && child.chainCode == digest[32..]
      && IsPublic(lib, child)
      && PublicPoint(lib, child) == lib.curve.add(lib.curve.MulG(FromBE(digest[..32])), PublicPoint(lib, pub))
  {
    PublicStep(lib, pub, index);
    var data := PublicData(lib, pub, index);
    KeyIsItsPoint(lib, pub);
    PublicChildFields(lib, pub, index, data);
    PublicChildIsPublic(lib, pub, index, data);
    PublicChildVersion(lib, pub, index, data);
    Powers();
    BigEndianRoundTrip(index, 4);
    hide DerivePublic, PublicChild, PublicPoint, IsPublic, PublicKeys.Compress, ToBE, FromBE, NetworkOf, VersionOf,
         lib.curve.Valid;
  }

  lemma PublicChildVersion(lib: Library, pub: Buffers, index: nat, data: Bytes)
    requires lib.curve.Valid() && IsPublic(lib, pub)
    requires ChildPoint(lib, pub, data).Affine? && PublicChild(lib, pub, index, data).Ok?
    ensures Some(PublicChild(lib, pub, index, data).value.version) == VersionOf(NetworkOf(lib, pub.version), "xpubkey")
  {
    hide PublicPoint, ChildPoint, PublicKeys.Compress, PublicKeys.FromDER, ToBE, FromBE, NetworkOf, VersionOf,
         lib.curve.Valid;
  }

  /** The key buffer of a public key is the compressed form of its point. */
  lemma KeyIsItsPoint(lib: Library, pub: Buffers)
    requires lib.curve.PrimeField() && IsPublic(lib, pub)
    ensures PublicKeys.Compress(PublicPoint(lib, pub)) == pub.key
  {
    var k := PublicKeys.FromDER(lib.curve, pub.key, true).value;
    PublicKeys.EncodeInvertsDecode(lib.curve, pub.key, true);
    PrefixOf(lib.curve, pub.key);
    hide lib.curve.PrimeField;
  }

  lemma PrefixOf(c: Curve, buf: Bytes)
    requires c.PrimeField() && PublicKeys.FromDER(c, buf, true).Ok? && |buf| == 33
    ensures buf[0] in {0x02, 0x03} && PublicKeys.FromDER(c, buf, true).value.compressed
  {
    hide c.FromX, c.PrimeField;
  }

  // ---- versions ----

  /** A key whose version is its network's own keeps it in every child. */
  lemma {:induction false} VersionKept(lib: Library, k: Buffers, index: int, hardened: bool, nonCompliant: bool)
    requires lib.curve.Valid() && IsPrivate(lib, k) && DerivePrivate(lib, k, index, hardened, nonCompliant).Ok?
    requires VersionOf(NetworkOf(lib, k.version), "xprivkey") == Some(k.version)
    ensures DerivePrivate(lib, k, index, hardened, nonCompliant).value.version == k.version
    decreases MAX_INDEX - Effective(index, hardened)
  {
    hide DerivePrivate, PrivateChild, PrivateData, IsPrivate, ChildScalar, NetworkOf, VersionOf, lib.curve.Valid;
    FirstTry(lib, k, index, hardened, nonCompliant);
    NeverGoesBack(lib, k, index, hardened, nonCompliant);
    var i := Effective(index, hardened);
    var data := PrivateData(lib, k, i, index >= HARDENED || hardened, nonCompliant);
    if ChildScalar(lib, k, data) == 0 {
      VersionKept(lib, k, i + 1, false, nonCompliant);
    } else {
      PrivateChildVersion(lib, k, i, data);
    }
  }

  lemma {:induction false} PublicVersionKept(lib: Library, pub: Buffers, index: int, hardened: bool)
    requires lib.curve.Valid() && IsPublic(lib, pub) && DerivePublic(lib, pub, index, hardened).Ok?
    requires VersionOf(NetworkOf(lib, pub.version), "xpubkey") == Some(pub.version)
    ensures DerivePublic(lib, pub, index, hardened).value.version == pub.version
    decreases HARDENED - index
  {
    PublicRefusals(lib, pub, index, hardened);
    hide PublicUsable, DerivePublic, PublicChild, PublicData, IsPublic, NetworkOf, VersionOf;
    PublicStep(lib, pub, index);
    if PublicUsable(lib, pub, index) {
      UsableVersion(lib, pub, index);
    } else {
      PublicVersionKept(lib, pub, index + 1, false);
    }
  }

  lemma UsableVersion(lib: Library, pub: Buffers, index: nat)
    requires lib.curve.Valid() && IsPublic(lib, pub) && PublicUsable(lib, pub, index)
    requires PublicChild(lib, pub, index, PublicData(lib, pub, index)).Ok?
    ensures Some(PublicChild(lib, pub, index, PublicData(lib, pub, index)).value.version)
         == VersionOf(NetworkOf(lib, pub.version), "xpubkey")
  {
    hide PublicChild, PublicData, IsPublic, NetworkOf, VersionOf;
    PublicChildVersion(lib, pub, index, PublicData(lib, pub, index));
  }

  // ---- what the public side refuses ----

  /** Every hardened request and every index from 2^31 on, then every negative one; what is left stays plain. */
  lemma PublicRefusals(lib: Library, pub: Buffers, index: int, hardened: bool)
    requires lib.curve.Valid() && IsPublic(lib, pub)
    ensures hardened || index >= HARDENED ==> DerivePublic(lib, pub, index, hardened) == Err(CantDeriveHardened)
    ensures !hardened && index < 0 ==> DerivePublic(lib, pub, index, hardened) == Err(InvalidPath)
    ensures DerivePublic(lib, pub, index, hardened).Ok? ==>
      !hardened && 0 <= index <= DerivePublic(lib, pub, index, hardened).value.Index() < HARDENED
  {
    hide PublicChild, PublicData, IsPublic, ChildPoint, lib.curve.Valid;
    if !hardened && 0 <= index < HARDENED && DerivePublic(lib, pub, index, false).Ok? {
      PublicStaysPlain(lib, pub, index);
    }
  }

  lemma {:induction false} PublicStaysPlain(lib: Library, pub: Buffers, index: nat)
    requires lib.curve.Valid() && IsPublic(lib, pub) && DerivePublic(lib, pub, index, false).Ok?
    ensures index <= DerivePublic(lib, pub, index, false).value.Index() < HARDENED
    decreases HARDENED - index
  {
    hide PublicUsable, DerivePublic, PublicChild, PublicData, IsPublic, lib.curve.Valid;
    PublicStep(lib, pub, index);
    if PublicUsable(lib, pub, index) {
      UsableIndex(lib, pub, index);
    } else {
      PublicStaysPlain(lib, pub, index + 1);
    }
  }

  lemma UsableIndex(lib: Library, pub: Buffers, index: nat)
    requires lib.curve.Valid() && IsPublic(lib, pub) && PublicUsable(lib, pub, index) && index < HARDENED
    requires PublicChild(lib, pub, index, PublicData(lib, pub, index)).Ok?
    ensures PublicChild(lib, pub, index, PublicData(lib, pub, index)).value.Index() == index
  {
    hide PublicChild, PublicData, IsPublic, ToBE, FromBE;
    PublicChildFields(lib, pub, index, PublicData(lib, pub, index));
    Powers();
    BigEndianRoundTrip(index, 4);
  }

  /**
   * Where the private side gives a child, the public side refuses the same request exactly if the
   * request or the child is hardened.
   */
  lemma RefusedExactlyIfHardened(lib: Library, k: Buffers, pub: Buffers, index: int, hardened: bool, nonCompliant: bool)
    requires lib.curve.Valid() && IsPrivate(lib, k) && Consistent(lib, k.version)
    requires Neuter(lib, k) == Ok(pub) && IsPublic(lib, pub)
    requires DerivePrivate(lib, k, index, hardened, nonCompliant).Ok?
    ensures DerivePublic(lib, pub, index, hardened) == Err(CantDeriveHardened)
       <==> hardened || DerivePrivate(lib, k, index, hardened, nonCompliant).value.Index() >= HARDENED
  {
    hide DerivePrivate, DerivePublic, IsPrivate, IsPublic, Consistent;
    PublicRefusals(lib, pub, index, hardened);
    NeverGoesBack(lib, k, index, hardened, nonCompliant);
    if !hardened && index < HARDENED {
      StepCommutes(lib, k, pub, index, nonCompliant);
      var child := DerivePrivate(lib, k, index, false, nonCompliant).value;
      if child.Index() < HARDENED { NeuterIsPublic(lib, child); }
    }
  }

  // ---- paths ----

  lemma DerivedIsPrivate(lib: Library, k: Buffers, index: int, nonCompliant: bool)
    requires lib.curve.Valid() && IsPrivate(lib, k) && DerivePrivate(lib, k, index, false, nonCompliant).Ok?
    ensures IsPrivate(lib, DerivePrivate(lib, k, index, false, nonCompliant).value)
  {
    NeverGoesBack(lib, k, index, false, nonCompliant);
  }

  lemma {:induction false} DerivedIsPublic(lib: Library, pub: Buffers, index: int)
    requires lib.curve.Valid() && IsPublic(lib, pub) && DerivePublic(lib, pub, index, false).Ok?
    ensures IsPublic(lib, DerivePublic(lib, pub, index, false).value)
    decreases HARDENED - index
  {
    hide PublicUsable, PublicChild, PublicData, IsPublic;
    if 0 <= index < HARDENED {
      PublicStep(lib, pub, index);
      if PublicUsable(lib, pub, index) {
        UsablePublicChild(lib, pub, index);
      } else {
        DerivedIsPublic(lib, pub, index + 1);
      }
    }
  }

  lemma UsablePublicChild(lib: Library, pub: Buffers, index: nat)
    requires lib.curve.Valid() && IsPublic(lib, pub) && PublicUsable(lib, pub, index)
    ensures var child := PublicChild(lib, pub, index, PublicData(lib, pub, index));
      if child.Ok? then IsPublic(lib, child.value) else child == Err(BadNetwork)
  {
    PublicChildIsPublic(lib, pub, index, PublicData(lib, pub, index));
  }

  /** The `reduce` of `HDPrivateKey._deriveFromString`. */
  function PrivatePath(lib: Library, k: Buffers, indexes: seq<int>, nonCompliant: bool): (r: Result<Buffers, HDError>)
    requires lib.curve.Valid() && IsPrivate(lib, k)
    ensures r.Ok? ==> IsPrivate(lib, r.value)
    decreases |indexes|
  {
    if indexes == [] then Ok(k)
    else
      match DerivePrivate(lib, k, indexes[0], false, nonCompliant)
      case Err(e) => Err(e)
      case Ok(child) =>
        DerivedIsPrivate(lib, k, indexes[0], nonCompliant);
        PrivatePath(lib, child, indexes[1..], nonCompliant)
  }

  /** The `reduce` of `HDPublicKey._deriveFromString`. */
  function PublicPath(lib: Library, pub: Buffers, indexes: seq<int>): (r: Result<Buffers, HDError>)
    requires lib.curve.Valid() && IsPublic(lib, pub)
    ensures r.Ok? ==> IsPublic(lib, r.value)
    decreases |indexes|
  {
    if indexes == [] then Ok(pub)
    else
      match DerivePublic(lib, pub, indexes[0], false)
      case Err(e) => Err(e)
      case Ok(child) =>
        DerivedIsPublic(lib, pub, indexes[0]);
        PublicPath(lib, child, indexes[1..])
  }

  function DeriveFromString(lib: Library, other: OtherCast, k: Buffers, path: string, nonCompliant: bool)
    : (r: Result<Buffers, HDError>)
    requires lib.curve.Valid() && IsPrivate(lib, k)
    ensures r.Ok? ==> IsPrivate(lib, r.value)
  {
    if !IsValidPath(other, path, MAX_INDEX) then Err(InvalidPath)
    else PrivatePath(lib, k, Indexes(other, path).value, nonCompliant)
  }

  function DerivePublicFromString(lib: Library, other: OtherCast, pub: Buffers, path: string): Result<Buffers, HDError>
    requires lib.curve.Valid() && IsPublic(lib, pub)
  {
    if '\'' in path then Err(CantDeriveHardened)
    else if !IsValidPath(other, path, HARDENED) then Err(InvalidPath)
    else PublicPath(lib, pub, Indexes(other, path).value)
  }

  /**
   * Whatever the network registry holds: along any path on which both sides succeed, the public
   * result has the point, chain code, depth, fingerprint and index of the private one.
   */
  lemma {:induction false} PathMatches(lib: Library, k: Buffers, pub: Buffers, indexes: seq<int>, nonCompliant: bool)
    requires lib.curve.Valid() && IsPrivate(lib, k) && Matches(lib, k, pub) && IsPublic(lib, pub)
    requires PublicPath(lib, pub, indexes).Ok? && PrivatePath(lib, k, indexes, nonCompliant).Ok?
    ensures Matches(lib, PrivatePath(lib, k, indexes, nonCompliant).value, PublicPath(lib, pub, indexes).value)
    decreases |indexes|
  {
    hide DerivePrivate, IsPrivate, IsPublic, Matches;
    if indexes == [] {
    } else {
      StepMatches(lib, k, pub, indexes[0], nonCompliant);
      DerivedIsPublic(lib, pub, indexes[0]);
      PathMatches(lib, DerivePrivate(lib, k, indexes[0], false, nonCompliant).value,
                  DerivePublic(lib, pub, indexes[0], false).value, indexes[1..], nonCompliant);
    }
  }

  /** Every step has a usable plain index at or after the one asked for. */
  ghost predicate NeverCrosses(lib: Library, k: Buffers, indexes: seq<int>, nonCompliant: bool)
    requires lib.curve.Valid() && IsPrivate(lib, k)
    decreases |indexes|
  {
    indexes == [] ||
    var child := DerivePrivate(lib, k, indexes[0], false, nonCompliant);
    && !NoneUsable(lib, k, indexes[0], HARDENED, nonCompliant) && child.Ok?
    && (DerivedIsPrivate(lib, k, indexes[0], nonCompliant);
        NeverCrosses(lib, child.value, indexes[1..], nonCompliant))
  }

  /**
   * Neutering commutes with derivation along a whole path of plain indexes: point, chain code,
   * depth, fingerprint, index and network version all agree, and the public side refuses exactly
   * the paths on which a retry reaches the hardened half.
   */
  lemma {:induction false} NeuterCommutes(lib: Library, k: Buffers, indexes: seq<int>, nonCompliant: bool)
    requires lib.curve.Valid() && IsPrivate(lib, k) && Consistent(lib, k.version)
    requires AllIn(indexes, HARDENED)
    ensures Neuter(lib, k).Ok? && IsPublic(lib, Neuter(lib, k).value)
    ensures NeverCrosses(lib, k, indexes, nonCompliant) ==> PrivatePath(lib, k, indexes, nonCompliant).Ok?
    ensures PublicPath(lib, Neuter(lib, k).value, indexes)
         == if NeverCrosses(lib, k, indexes, nonCompliant)
            then Neuter(lib, PrivatePath(lib, k, indexes, nonCompliant).value)
            else Err(CantDeriveHardened)
    decreases |indexes|
  {
    hide DerivePrivate, DerivePublic, Neuter, IsPrivate, IsPublic, Consistent, NoneUsable;
    NeuterIsPublic(lib, k);
    if indexes == [] {
    } else {
      StepCommutes(lib, k, Neuter(lib, k).value, indexes[0], nonCompliant);
      var child := DerivePrivate(lib, k, indexes[0], false, nonCompliant);
      if child.Ok? { CrossesWhenExhausted(lib, k, indexes[0], nonCompliant); }
      if child.Ok? && child.value.Index() < HARDENED {
        NeuterCommutes(lib, child.value, indexes[1..], nonCompliant);
      }
    }
  }

  lemma NeuterIsPublic(lib: Library, k: Buffers)
    requires lib.curve.Valid() && IsPrivate(lib, k) && Consistent(lib, k.version)
    ensures Neuter(lib, k).Ok? && IsPublic(lib, Neuter(lib, k).value)
  {
    NeuterMatches(lib, k);
  }

  /** The same for path strings, canonical or not: any text without a quote that either side accepts. */
  lemma NeuterCommutesOnStrings(lib: Library, other: OtherCast, k: Buffers, path: string, nonCompliant: bool)
    requires lib.curve.Valid() && IsPrivate(lib, k) && Consistent(lib, k.version)
    requires IsValidPath(other, path, HARDENED) && '\'' !in path
    ensures Neuter(lib, k).Ok? && IsPublic(lib, Neuter(lib, k).value)
    ensures NeverCrosses(lib, k, Indexes(other, path).value, nonCompliant)
      ==> DeriveFromString(lib, other, k, path, nonCompliant).Ok?
    ensures DerivePublicFromString(lib, other, Neuter(lib, k).value, path)
         == if NeverCrosses(lib, k, Indexes(other, path).value, nonCompliant)
            then Neuter(lib, DeriveFromString(lib, other, k, path, nonCompliant).value)
            else Err(CantDeriveHardened)
  {
    hide DerivePrivate, DerivePublic, Neuter, IsPrivate, IsPublic, Consistent, Indexes;
    NeuterCommutes(lib, k, Indexes(other, path).value, nonCompliant);
  }

  /** On the private side a path text is refused as invalid unless it is a list of indexes below 2^32. */
  lemma PrivateStringRefusals(lib: Library, other: OtherCast, k: Buffers, path: string, nonCompliant: bool)
    requires lib.curve.Valid() && IsPrivate(lib, k)
    ensures Indexes(other, path).None? || (exists i :: i in Indexes(other, path).value && !(0 <= i < 0x1_0000_0000)) ==>
      DeriveFromString(lib, other, k, path, nonCompliant) == Err(InvalidPath)
    ensures Indexes(other, path).Some? && (forall i | i in Indexes(other, path).value :: 0 <= i < 0x1_0000_0000) ==>
      DeriveFromString(lib, other, k, path, nonCompliant)
      == PrivatePath(lib, k, Indexes(other, path).value, nonCompliant)
  {
    hide PrivatePath, Indexes, IsPrivate, lib.curve.Valid;
    if Indexes(other, path).Some? {
      AllInMeans(Indexes(other, path).value);
    }
  }

  lemma AllInMeans(indexes: seq<int>)
    ensures AllIn(indexes, MAX_INDEX) <==> forall i | i in indexes :: 0 <= i < 0x1_0000_0000
  {
    assert forall i | 0 <= i < |indexes| :: indexes[i] in indexes;
  }

  /** What a path text is refused for on the public side: a quote first, then what is no list of plain indexes. */
  lemma PublicStringRefusals(lib: Library, other: OtherCast, pub: Buffers, path: string)
    requires lib.curve.Valid() && IsPublic(lib, pub)
    ensures '\'' in path ==> DerivePublicFromString(lib, other, pub, path) == Err(CantDeriveHardened)
    ensures '\'' !in path && !IsValidPath(other, path, HARDENED) ==>
      DerivePublicFromString(lib, other, pub, path) == Err(InvalidPath)
  {
    hide PublicPath, Indexes, IsPublic, lib.curve.Valid;
  }

  /** A canonical path with a hardened step is refused as such. */
  lemma HardenedPathIsRefused(lib: Library, other: OtherCast, pub: Buffers, p: seq<int>)
    requires lib.curve.Valid() && IsPublic(lib, pub) && AllIn(p, MAX_INDEX)
    ensures !AllIn(p, HARDENED) ==> DerivePublicFromString(lib, other, pub, PathText(p)) == Err(CantDeriveHardened)
    ensures AllIn(p, HARDENED) ==> DerivePublicFromString(lib, other, pub, PathText(p)) == PublicPath(lib, pub, p)
  {
    hide PublicPath, Indexes, PathText, IsPublic, lib.curve.Valid;
    PathRoundTrip(other, p);
  }

  /** Along any path a key whose version is its network's own keeps it. */
  lemma {:induction false} PathVersionKept(lib: Library, k: Buffers, indexes: seq<int>, nonCompliant: bool)
    requires lib.curve.Valid() && IsPrivate(lib, k) && PrivatePath(lib, k, indexes, nonCompliant).Ok?
    requires VersionOf(NetworkOf(lib, k.version), "xprivkey") == Some(k.version)
    ensures PrivatePath(lib, k, indexes, nonCompliant).value.version == k.version
    decreases |indexes|
  {
    hide DerivePrivate, IsPrivate, NetworkOf, VersionOf, lib.curve.Valid;
    if indexes == [] {
    } else {
      VersionKept(lib, k, indexes[0], false, nonCompliant);
      DerivedIsPrivate(lib, k, indexes[0], nonCompliant);
      PathVersionKept(lib, DerivePrivate(lib, k, indexes[0], false, nonCompliant).value, indexes[1..], nonCompliant);
    }
  }

  lemma {:induction false} PublicPathVersionKept(lib: Library, pub: Buffers, indexes: seq<int>)
    requires lib.curve.Valid() && IsPublic(lib, pub) && PublicPath(lib, pub, indexes).Ok?
    requires VersionOf(NetworkOf(lib, pub.version), "xpubkey") == Some(pub.version)
    ensures PublicPath(lib, pub, indexes).value.version == pub.version
    decreases |indexes|
  {
    hide DerivePublic, IsPublic, NetworkOf, VersionOf;
    if indexes == [] {
    } else {
      PublicVersionKept(lib, pub, indexes[0], false);
      DerivedIsPublic(lib, pub, indexes[0]);
      PublicPathVersionKept(lib, DerivePublic(lib, pub, indexes[0], false).value, indexes[1..]);
    }
  }

  /** Deriving along a concatenation is deriving along the first part, then the second. */
  lemma {:induction false} PathConcat(lib: Library, k: Buffers, p: seq<int>, q: seq<int>, nonCompliant: bool)
    requires lib.curve.Valid() && IsPrivate(lib, k)
    ensures PrivatePath(lib, k, p + q, nonCompliant)
         == match PrivatePath(lib, k, p, nonCompliant)
            case Err(e) => Err(e)
            case Ok(middle) => PrivatePath(lib, middle, q, nonCompliant)
    decreases |p|
  {
    hide DerivePrivate, IsPrivate;
    if p == [] {
      assert p + q == q;
    } else {
      assert (p + q)[1..] == p[1..] + q;
      var child := DerivePrivate(lib, k, p[0], false, nonCompliant);
      if child.Ok? {
        DerivedIsPrivate(lib, k, p[0], nonCompliant);
        PathConcat(lib, child.value, p[1..], q, nonCompliant);
      }
    }
  }

  /** Deriving along the canonical text of a list of indexes is deriving along the list. */
  lemma CanonicalPath(lib: Library, other: OtherCast, k: Buffers, p: seq<int>, nonCompliant: bool)
    requires lib.curve.Valid() && IsPrivate(lib, k) && AllIn(p, MAX_INDEX)
    ensures DeriveFromString(lib, other, k, PathText(p), nonCompliant) == PrivatePath(lib, k, p, nonCompliant)
  {
    hide IsPrivate, Indexes, PathText;
    PathRoundTrip(other, p);
  }

  /** A canonical path string, split at any step, is derived piece by piece. */
  lemma StringPath(lib: Library, other: OtherCast, k: Buffers, p: seq<int>, q: seq<int>, nonCompliant: bool)
    requires lib.curve.Valid() && IsPrivate(lib, k) && AllIn(p, MAX_INDEX) && AllIn(q, MAX_INDEX)
    ensures DeriveFromString(lib, other, k, PathText(p) + Tail(q), nonCompliant)
         == match DeriveFromString(lib, other, k, PathText(p), nonCompliant)
            case Err(e) => Err(e)
            case Ok(middle) => DeriveFromString(lib, other, middle, PathText(q), nonCompliant)
  {
    hide IsPrivate, DeriveFromString, PrivatePath, PathText, Tail, AllIn;
    PathTextConcat(p, q);
    PathConcat(lib, k, p, q, nonCompliant);
    CanonicalPath(lib, other, k, p + q, nonCompliant);
    CanonicalPath(lib, other, k, p, nonCompliant);
    var middle := PrivatePath(lib, k, p, nonCompliant);
    if middle.Ok? {
      CanonicalPath(lib, other, middle.value, q, nonCompliant);
    }
  }

  /**
   * The 37 hashed bytes, as one number: the parent scalar for a hardened child, the compressed
   * parent point for a plain one, followed by the index in 32 bits.
   */
  lemma HashInput(lib: Library, k: Buffers, index: nat, hardened: bool)
    requires lib.curve.Valid() && IsPrivate(lib, k) && index < MAX_INDEX
    ensures var data := PrivateData(lib, k, index, hardened, false);
      |data| == 37
      && FromBE(data) == (if hardened then k.Scalar() else FromBE(PublicBytes(lib, k))) * 0x1_0000_0000 + index
      && (hardened ==> data[0] == 0) && (!hardened ==> data[0] in {2, 3})
  {
    Powers();
    BigEndianRoundTrip(index, 4);
    if hardened {
      HardenedInput(k.Scalar(), k.key, index);
    } else {
      hide FromBE, ToBE, PublicBytes;
      BigEndianConcat(PublicBytes(lib, k), ToBE(index, 4));
      FirstByte(lib, k);
    }
  }

  lemma HardenedInput(scalar: nat, key: Bytes, index: nat)
    requires |key| == 32 && scalar == FromBE(key)
    ensures FromBE([0] + ToBE(scalar, 32) + ToBE(index, 4)) == scalar * Pow256(4) + FromBE(ToBE(index, 4))
  {
    hide FromBE, ToBE, Pow256;
    BigEndianBytesRoundTrip(key);
    LeadingZeroByte(key);
    BigEndianConcat([0] + key, ToBE(index, 4));
  }

  lemma FirstByte(lib: Library, k: Buffers)
    requires lib.curve.Valid() && IsPrivate(lib, k)
    ensures PublicBytes(lib, k)[0] in {2, 3}
  {}

  lemma StepLineage(lib: Library, k: Buffers, index: nat, nonCompliant: bool)
    requires lib.curve.Valid() && IsPrivate(lib, k) && DerivePrivate(lib, k, index, false, nonCompliant).Ok?
    ensures var child := DerivePrivate(lib, k, index, false, nonCompliant).value;
      && child.depth == [(k.depth[0] as int + 1) % 256]
      && child.parentFingerPrint == lib.FingerPrint(PublicBytes(lib, k))
      && index <= child.Index() < MAX_INDEX
    decreases MAX_INDEX - index
  {
    hide Usable, DerivePrivate, PrivateChild, PrivateData, PublicBytes;
    DataAtEffective(lib, k, index, false, nonCompliant);
    NeverGoesBack(lib, k, index, false, nonCompliant);
    if Usable(lib, k, index, nonCompliant) {
      PrivateChildFields(lib, k, index, PrivateData(lib, k, index, index >= HARDENED, nonCompliant));
    } else {
      StepLineage(lib, k, index + 1, nonCompliant);
    }
  }

  /** Along a path the depth counts the steps, mod 256, and the last key names its parent. */
  lemma {:induction false} PathLineage(lib: Library, k: Buffers, indexes: seq<int>, last: int, nonCompliant: bool)
    requires lib.curve.Valid() && IsPrivate(lib, k)
    requires PrivatePath(lib, k, indexes + [last], nonCompliant).Ok?
    ensures PrivatePath(lib, k, indexes, nonCompliant).Ok?
    ensures var parent := PrivatePath(lib, k, indexes, nonCompliant).value;
      var child := PrivatePath(lib, k, indexes + [last], nonCompliant).value;
      && child.depth == [(k.depth[0] as int + |indexes| + 1) % 256]
      && child.parentFingerPrint == lib.FingerPrint(PublicBytes(lib, parent))
      && last <= child.Index() < MAX_INDEX
    decreases |indexes|
  {
    hide DerivePrivate, PublicBytes, IsPrivate, Library.FingerPrint, lib.curve.Valid;
    var path := indexes + [last];
    NonNegativeStep(lib, k, path[0], nonCompliant);
    StepLineage(lib, k, path[0], nonCompliant);
    var child := DerivePrivate(lib, k, path[0], false, nonCompliant).value;
    DerivedIsPrivate(lib, k, path[0], nonCompliant);
    if indexes == [] {
      assert path[1..] == [];
    } else {
      assert path[1..] == indexes[1..] + [last];
      PathLineage(lib, child, indexes[1..], last, nonCompliant);
      assert k.HasSizes(32) by { SizesOf(lib, k); }
      CountOn(k.depth[0], |indexes|);
    }
  }

  lemma SizesOf(lib: Library, k: Buffers)
    requires IsPrivate(lib, k)
    ensures k.HasSizes(32)
  {}

  lemma CountOn(depth: byte, n: nat)
    ensures ((depth as int + 1) % 256 + n) % 256 == (depth as int + n + 1) % 256
  {}

  lemma NonNegativeStep(lib: Library, k: Buffers, index: int, nonCompliant: bool)
    requires lib.curve.Valid() && IsPrivate(lib, k) && DerivePrivate(lib, k, index, false, nonCompliant).Ok?
    ensures index >= 0
  {}

  /** The non-compliant form hashes other bytes only for hardened children of a key with a zero top byte. */
  lemma NonCompliantDiffers(lib: Library, k: Buffers, index: nat, hardened: bool)
    requires lib.curve.Valid() && IsPrivate(lib, k)
    ensures PrivateData(lib, k, index, hardened, true) == PrivateData(lib, k, index, hardened, false)
       <==> !hardened || k.key[0] != 0
  {
    UnpaddedLength(k.Scalar(), 32);
    UnpaddedValue(k.Scalar());
    TopByte(k.key);
    if hardened && k.key[0] != 0 {
      BigEndianInjective(Unpadded(k.Scalar()), ToBE(k.Scalar(), 32)) by { BigEndianRoundTrip(k.Scalar(), 32); }
    } else if hardened {
      assert |PrivateData(lib, k, index, hardened, true)| < |PrivateData(lib, k, index, hardened, false)|;
    }
  }

  /** The non-compliant form is the same number without padding: the zero byte is followed by the top byte in use. */
  lemma NonCompliantInput(lib: Library, k: Buffers, index: nat)
    requires lib.curve.Valid() && IsPrivate(lib, k) && index < MAX_INDEX
    ensures var data := PrivateData(lib, k, index, true, true);
      && FromBE(data) == k.Scalar() * 0x1_0000_0000 + index
      && |data| >= 6 && data[0] == 0 && data[1] != 0
  {
    PositiveScalar(lib, k);
    hide FromBE, ToBE, Unpadded, PublicBytes, IsPrivate, lib.curve.Valid;
    var (body, last) := (Unpadded(k.Scalar()), ToBE(index, 4));
    Powers();
    BigEndianRoundTrip(index, 4);
    UnpaddedValue(k.Scalar());
    UnpaddedTop(k.Scalar());
    LeadingZeroByte(body);
    BigEndianConcat([0] + body, last);
  }

  lemma PositiveScalar(lib: Library, k: Buffers)
    requires IsPrivate(lib, k)
    ensures k.Scalar() > 0
  {}

  lemma {:induction false} UnpaddedTop(v: nat)
    requires v > 0
    ensures Unpadded(v)[0] != 0
  {
    if v < 256 {
    } else {
      UnpaddedTop(v / 256);
    }
  }

  lemma {:induction false} TopByte(s: Bytes)
    requires s != []
    ensures s[0] == 0 <==> FromBE(s) < Pow256(|s| - 1)
  {
    if |s| > 1 {
      TopByte(s[..|s| - 1]);
    } else {
      assert FromBE(s[..0]) == 0;
    }
  }
}
