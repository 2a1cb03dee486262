/**
 The TPM 1.2 parsers and serializers as the source runs them: over a shared cursor and an
 append-only buffer. Each is tied to the decoder or byte layout that specifies it.
 */
module Tpm12Codec {
  import opened Common
  import opened BigEndian
  import opened Wire
  import opened ByteStreams
  import opened Tpm12Formats
  import opened Tpm12Identity

  // ----- Parsers -----------------------------------------------------------------------------

  method ParseTpmStructVer(reader: Reader) returns (r: Result<StructVer>)
    requires reader.Valid()
    modifies reader`pos
    ensures reader.Valid()
    ensures Agrees(DecodeVersion(old(reader.Rest())), r, reader.Rest())
  {
    var b :- reader.ReadFull(4);
    var v := StructVer(b[0], b[1], b[2], b[3]);
    if v.major != 1 || v.minor != 1 || v.revMajor != 0 || v.revMinor != 0 {
      return Failure(BadVersion);
    }
    r := Success(v);
  }

  method ParseSymmetricKeyParms(keyParms: seq<byte>) returns (r: Result<SymmetricKeyParms>)
    ensures r == DecodeSymmetricKeyParms(keyParms)
  {
    var reader := new Reader(keyParms);
    var keyLength :- ReadNonZeroUint32(reader);
    var blockSize :- ReadNonZeroUint32(reader);
    var ivSize :- ReadUint32(reader);
    var iv :- ReadBytes(reader, ivSize);
    var left := reader.Len();
    if left > 0 {
      return Failure(Leftover);
    }
    r := Success(SymmetricKeyParms(keyLength, blockSize, iv));
  }

  method ParseRSAKeyParms(keyParms: seq<byte>) returns (r: Result<RsaKeyParms>)
    ensures r == DecodeRsaKeyParms(keyParms)
  {
    var reader := new Reader(keyParms);
    var keyLength :- ReadNonZeroUint32(reader);
    var numPrimes :- ReadNonZeroUint32(reader);
    var exponentSize :- ReadUint32(reader);
    var exponent :- ReadBytes(reader, exponentSize);
    var left := reader.Len();
    if left > 0 {
      return Failure(Leftover);
    }
    r := Success(RsaKeyParms(keyLength, numPrimes, exponent));
  }

  method ParseKeyParmsFromReader(reader: Reader) returns (r: Result<KeyParms>)
    requires reader.Valid()
    modifies reader`pos
    ensures reader.Valid()
    ensures Agrees(DecodeKeyParms(old(reader.Rest())), r, reader.Rest())
  {
    var algId :- ReadNonZeroUint32(reader);
    if !KnownAlgorithm(algId) {
      return Failure(UnknownAlgorithm);
    }
    var encScheme :- ReadUint16(reader);
    var sigScheme :- ReadUint16(reader);
    var paramSize :- ReadUint32(reader);
    var params :- ReadBytes(reader, paramSize);
    var rsa: Option<RsaKeyParms>, sym: Option<SymmetricKeyParms> := None, None;
    if algId == ALG_RSA {
      var p :- ParseRSAKeyParms(params);
      rsa := Some(p);
    } else if IsAes(algId) {
      var p :- ParseSymmetricKeyParms(params);
      sym := Some(p);
    } else if paramSize > 0 {
      return Failure(UnexpectedParams);
    }
    r := Success(KeyParms(algId, encScheme, sigScheme, rsa, sym));
  }

  method ParseStorePubKeyFromReader(reader: Reader) returns (r: Result<StorePubKey>)
    requires reader.Valid()
    modifies reader`pos
    ensures reader.Valid()
    ensures Agrees(DecodeStorePubKey(old(reader.Rest())), r, reader.Rest())
  {
    var keyLength :- ReadUint32(reader);
    if keyLength == 0 {
      return Failure(ZeroValue);
    }
    var key :- ReadBytes(reader, keyLength);
    r := Success(StorePubKey(keyLength, key));
  }

  method ParsePubKeyFromReader(reader: Reader) returns (r: Result<PubKey>)
    requires reader.Valid()
    modifies reader`pos
    ensures reader.Valid()
    ensures Agrees(DecodePubKey(old(reader.Rest())), r, reader.Rest())
  {
    var parms :- ParseKeyParmsFromReader(reader);
    var key :- ParseStorePubKeyFromReader(reader);
    r := Success(PubKey(parms, key));
  }

  /** The trailing-bytes check of ParseIdentityRequest: only zeros may follow the request. */
  method IgnoreTrailingZeros(reader: Reader) returns (r: Result<()>)
    requires reader.Valid()
    modifies reader`pos
    ensures reader.Valid()
    ensures r == if AllZero(old(reader.Rest())) then Success(()) else Failure(Leftover)
  {
    var left := reader.Len();
    if left > 0 {
      // Bytes are left, so this read cannot fail and takes them all.
      var read := reader.Read(left);
      var leftover := read.value;
      assert leftover == old(reader.Rest());
      for i := 0 to |leftover|
        invariant forall j :: 0 <= j < i ==> leftover[j] == 0
      {
        if leftover[i] != 0x00 {
          return Failure(Leftover);
        }
      }
    }
    r := Success(());
  }

  method ParseIdentityRequest(data: seq<byte>) returns (r: Result<IdentityReq>)
    ensures r == DecodeIdentityReq(data)
  {
    var reader := new Reader(data);
    var asymBlobSize :- ReadNonZeroUint32(reader);
    var symBlobSize :- ReadNonZeroUint32(reader);
    var asymAlgorithm :- ParseKeyParmsFromReader(reader);
    var symAlgorithm :- ParseKeyParmsFromReader(reader);
    var asymBlob :- ReadBytes(reader, asymBlobSize);
    var symBlob :- ReadBytes(reader, symBlobSize);
    var _ :- IgnoreTrailingZeros(reader);
    r := Success(IdentityReq(asymAlgorithm, symAlgorithm, asymBlob, symBlob));
  }

  method ParseSymmetricKey(keyBytes: seq<byte>) returns (r: Result<SymmetricKey>)
    ensures r == DecodeSymmetricKey(keyBytes)
  {
    var reader := new Reader(keyBytes);
    var algId :- ReadNonZeroUint32(reader);
    if !KnownAlgorithm(algId) {
      return Failure(UnknownAlgorithm);
    }
    var encScheme :- ReadUint16(reader);
    var keySize :- ReadUint16(reader);
    if keySize == 0 {
      return Failure(ZeroValue);
    }
    var key :- ReadBytes(reader, keySize as uint32);
    var left := reader.Len();
    if left > 0 {
      return Failure(Leftover);
    }
    r := Success(SymmetricKey(algId, encScheme, key));
  }

  method ParseIdentityProof(idProofBytes: seq<byte>) returns (r: Result<IdentityProof>)
    ensures r == DecodeIdentityProof(idProofBytes)
  {
    var reader := new Reader(idProofBytes);
    var version :- ParseTpmStructVer(reader);
    var labelAreaSize :- ReadUint32(reader);
    var identityBindingSize :- ReadNonZeroUint32(reader);
    var endorsementSize :- ReadUint32(reader);
    var platformSize :- ReadUint32(reader);
    var conformanceSize :- ReadUint32(reader);
    var aik :- ParsePubKeyFromReader(reader);
    var labelArea :- ReadBytes(reader, labelAreaSize);
    var identityBinding :- ReadBytes(reader, identityBindingSize);
    var endorsement :- ReadBytes(reader, endorsementSize);
    var platform :- ReadBytes(reader, platformSize);
    var conformance :- ReadBytes(reader, conformanceSize);
    var left := reader.Len();
    if left > 0 {
      return Failure(Leftover);
    }
    r := Success(IdentityProof(version, aik, labelArea, identityBinding, endorsement, platform, conformance));
  }

  // ----- Serializers -------------------------------------------------------------------------

  method SerializeStorePubKey(pubKey: StorePubKey) returns (b: seq<byte>)
    ensures b == StorePubKeyBytes(pubKey)
  {
    var buf := new Buffer();
    buf.WriteUint32(pubKey.keyLength);
    buf.Write(pubKey.key);
    b := buf.contents;
  }

  method SerializeRSAKeyParms(p: RsaKeyParms) returns (r: Result<seq<byte>>)
    ensures r == RsaKeyParmsBytes(p)
  {
    var buf := new Buffer();
    buf.WriteUint32(p.keyLength);
    buf.WriteUint32(p.numPrimes);
    if |p.exponent| > MAX_UINT32 {
      return Failure(TooLong);
    }
    buf.WriteUint32(|p.exponent| as uint32);
    buf.Write(p.exponent);
    r := Success(buf.contents);
  }

  method SerializeSymmetricKeyParms(p: SymmetricKeyParms) returns (r: Result<seq<byte>>)
    ensures r == SymmetricKeyParmsBytes(p)
  {
    var buf := new Buffer();
    buf.WriteUint32(p.keyLength);
    buf.WriteUint32(p.blockSize);
    if |p.iv| > MAX_UINT32 {
      return Failure(TooLong);
    }
    buf.WriteUint32(|p.iv| as uint32);
    buf.Write(p.iv);
    r := Success(buf.contents);
  }

  method SerializeKeyParms(k: KeyParms) returns (r: Result<seq<byte>>)
    ensures r == KeyParmsBytes(k)
  {
    var buf := new Buffer();
    buf.WriteUint32(k.algId);
    buf.WriteUint16(k.encScheme);
    buf.WriteUint16(k.sigScheme);
    var params: seq<byte> := [];
    if k.algId == ALG_RSA {
      if k.sym.Some? {
        return Failure(UnexpectedParams);
      }
      if k.rsa.Some? {
        params :- SerializeRSAKeyParms(k.rsa.value);
      }
    } else if IsAes(k.algId) {
      if k.rsa.Some? {
        return Failure(UnexpectedParams);
      }
      if k.sym.Some? {
        params :- SerializeSymmetricKeyParms(k.sym.value);
      }
    } else if k.rsa.Some? || k.sym.Some? {
      return Failure(UnexpectedParams);
    }
    if |params| > MAX_UINT32 {
      return Failure(TooLong);
    }
    buf.WriteUint32(|params| as uint32);
    buf.Write(params);
    r := Success(buf.contents);
  }

  method SerializePubKey(k: PubKey) returns (r: Result<seq<byte>>)
    ensures r == PubKeyBytes(k)
  {
    var buf := new Buffer();
    var parms :- SerializeKeyParms(k.algorithmParms);
    buf.Write(parms);
    var key := SerializeStorePubKey(k.pubKey);
    buf.Write(key);
    r := Success(buf.contents);
  }

  method SerializeIdentityContents(c: IdentityContents) returns (r: Result<seq<byte>>)
    ensures r == IdentityContentsBytes(c)
  {
    var buf := new Buffer();
    buf.Write(VersionBytes(c.version));
    buf.WriteUint32(c.ordinal);
    buf.Write(c.labelPrivCADigest);
    var key :- SerializePubKey(c.identityPubKey);
    buf.Write(key);
    r := Success(buf.contents);
  }

  method SerializeSymmetricKey(k: SymmetricKey) returns (r: Result<seq<byte>>)
    ensures r == SymmetricKeyBytes(k)
  {
    var _ :- ValidateSymmetricKey(k);
    var buf := new Buffer();
    buf.WriteUint32(k.algId);
    buf.WriteUint16(k.encScheme);
    if |k.key| > MAX_UINT16 {
      return Failure(TooLong);
    }
    buf.WriteUint16(|k.key| as uint16);
    buf.Write(k.key);
    r := Success(buf.contents);
  }

  method SerializeAsymCAContents(c: AsymCAContents) returns (r: Result<seq<byte>>)
    ensures r == AsymCAContentsBytes(c)
  {
    var key :- SerializeSymmetricKey(c.sessionKey);
    var buf := new Buffer();
    buf.Write(key);
    buf.Write(c.idDigest);
    r := Success(buf.contents);
  }

  method SerializeSymCAAttestation(c: SymCAAttestation) returns (r: Result<seq<byte>>)
    ensures r == SymCAAttestationBytes(c)
  {
    var buf := new Buffer();
    if |c.credential| > MAX_UINT32 {
      return Failure(TooLong);
    }
    buf.WriteUint32(|c.credential| as uint32);
    var algorithm :- SerializeKeyParms(c.algorithm);
    buf.Write(algorithm);
    buf.Write(c.credential);
    r := Success(buf.contents);
  }
}
