# Verified model of the enrollment service

This project models the business logic of the switch enrollment service (`service/biz`) and
proves properties of it with Dafny 4.11. `dafny verify dfyconfig.toml` checks everything.

What is modelled, file by file:

- **TPM 1.2 wire formats.** `Tpm12Formats` and `Tpm12Identity` hold the structures of TPM Main
  Part 2 Structures, version 1.2 revision 116 (sections 5.1, 10.1, 10.4, 10.5 and 12.5 to 12.9),
  their byte layouts and decoders, and the theorems saying exactly which byte strings each
  decoder accepts; `Tpm12Layouts` spells the layouts out byte by byte. `Tpm12Codec` holds the parsers that share a cursor and the serializers that
  append to a buffer (`ByteStreams`), each proved equal to a decoder or a layout.
- **TPM 1.2 cryptographic envelope.** `RsaKeys` (key conversion), `IdentityBinding` (the signed
  identity contents), `AesCbc` (CBC and padding over any block cipher with an inverse) and
  `AikEnvelope` (the two blobs, and a device that opens them).
- **TPM 1.2 stream.** `AikStream` is `RotateAIKCert` against an environment that may answer
  anything; `AikProtocol` proves facts of every run, `AikHonestRun` of runs with the default
  utilities and with an honest device.
- **Owner certificates.** `EnrollzDeps` is the infrastructure as oracles with a ghost trace,
  `OwnerCerts` and `OwnerCertsProofs` the issue-and-rotate phase for lists of any length,
  `VendorEnrollment` the two workflows based on vendor certificates, `VendorReference` the same
  with the reference certificate verifier.
- **TPM 2.0.** `CsrIdevid` and `CsrEncoding` are the TCG_CSR_IDEVID_CONTENT parser (section 13.1
  of TCG TPM 2.0 Keys for Device Identity and Attestation), `Tpm20Checks` the checks on keys,
  certify infos and signatures, `HmacEnrollment` and `HmacWorkflow` the HMAC challenge,
  `HmacEndToEnd` the workflow put together with the chain of trust.
- **Chain of trust.** `ChainOfTrust` is a step model of TPMs, an untrusted network and any number
  of sessions of the service; `ChainOfTrustProofs` holds its invariant and the theorem about
  every accepted identity, `ChainOfTrustHonest` the converse for an honest TPM.
- **Certificate chains.** `CertChain` is the reference verifier: PEM chains, the intermediate
  pool shared through a pointer, serial numbers, key sizes.

`Common`, `BigEndian`, `Wire`, `Cards` and `Tpm20Types` are shared vocabulary.

How the pieces fit: a workflow is a function of the history so far (`NextStep`) or a relation
on the calls made; the imperative methods are proved to make only runs it allows, whatever the
oracles answer, and the properties are lemmas about all runs it allows.

Assumptions, all stated as preconditions: AES under a key of 16, 24 or 32 bytes is a permutation
with an inverse (`LawfulAes`), a matching RSA private key opens what its public half sealed under
the same scheme and OAEP label (`Rsa.Lawful`), SHA-1 gives 20 bytes, and in `ChainOfTrust`
symbolic HMACs and signatures (a value its primitive accepts was made by a holder of the key),
duplicates that open only under the endorsement key they were created for, collision-free object
names and marshalling, a trusted RoT database, fresh HMAC keys, and TPMs that keep their rules:
fixedTPM keys are not duplicated, TPM2_Certify certifies only what is loaded with its private
part, restricted keys sign no certification of their own, an imported HMAC key is not duplicated
again.

Where the code differs from what one might expect, the model follows the code, and the named
members say exactly what happens:

- unpadding accepts any padding from 1 to 255 bytes that fits, not only up to one block
  (`AesCbc.UnpadExact`), so re-encrypting restores the ciphertext if and only if at most 16 bytes
  were removed (`AesCbc.EncryptUndoesDecrypt`), and every ciphertext with two blocks of padding is
  on the failing side (`AesCbc.TwoBlocksOfPaddingLost`);
- the RSA key cycle loses the sign of a negative modulus, reads a negative exponent back modulo
  2^32, and prints a zero modulus it does not parse (`RsaKeys.RsaCycleExact`, with the results in
  `RsaKeys.CycleOfNonZero` and `RsaKeys.CycleOfZero`);
- the endorsement key exponent may equal 2^31 - 1, although the comment says less than, and its
  size is checked in whole bytes (`Tpm20Checks.EkAcceptedExactly`);
- the RSA size check on certificates is on whole bytes too, so 2041-bit moduli pass
  (`CertChain.RsaKeyAcceptedFrom2041Bits`);
- a subject serial number with two or more markers yields the text before the first
  (`CertChain.SerialAfterMarker`);
- validation happens card by card, between the CA calls: a bad card anywhere stops the run before
  any rotation (`OwnerCertsProofs.BadCardStopsRotation`), but the CA goes unasked only when the
  first card is rejected (`OwnerCertsProofs.CaUnaskedExactly`);
- the CSR serial is compared with the card id inside the CSR response, so it is that of the
  returned card, whose endorsement key was fetched, if and only if the two ids agree on it
  (`HmacEnrollment.SerialOfReturnedCard`); `HmacEnrollment.ForeignSerialAccepted` is an accepted
  run in which they differ, and `ChainOfTrustHonest.ForeignCsrAccepted` shows that any TPM
  otherwise playing by the rules can bring one about;
- an intermediate certificate stays in the caller's pool even when its leaf is then rejected
  (`CertChain.PoolAccumulates`);
- an oIDevID the CA issues as an empty string is sent as if none had been requested: "empty
  exactly when not requested" holds if and only if the CA gave no such answer
  (`OwnerCertsProofs.EmptyExactlyWhenNotRequested`), and `OwnerCertsProofs.EmptyAnswerRotated` is a
  run in which it fails.

Two differences have no effect a theorem could show: the error text for the IAK name algorithm
lists SHA-512, which the code rejects; and encryption to the endorsement key uses the OAEP label
"TCPA" while requests are opened with an empty label, since the two serve opposite directions.

## Model

| member | source | states |
|---|---|---|
| `Tpm12Formats.PubKeyExact` | service/biz/tpm12_utils.go:327-391 | TPM_PUBKEY, both directions at once: the parser returns k and leaves t exactly when k is well formed and the input is the printed k followed by t; so parse undoes print for every tail, print undoes parse on exactly the bytes consumed, and no key has two encodings |
| `Tpm12Formats.KeyParmsExact` | service/biz/tpm12_utils.go:327-391 | the same for TPM_KEY_PARMS through the RSA, AES and parameterless branches |
| `Tpm12Formats.PubKeyInjective` | service/biz/tpm12_utils.go:1105-1122 | printed keys are self-delimiting: equal bytes with any tails mean the same key and the same tail |
| `Tpm12Layouts.RsaParmsLayout` | service/biz/tpm12_utils.go:1001-1101 | TPM_KEY_PARMS of an RSA key byte by byte, in network byte order: algorithm 1, schemes, size, key length, primes, exponent behind its size |
| `Tpm12Layouts.AesParmsLayout` | service/biz/tpm12_utils.go:1023-1101 | the same for algorithms 6, 8 and 9: key length, block size, IV behind its size |
| `Tpm12Layouts.PlainParmsLayout` | service/biz/tpm12_utils.go:1045-1101 | the other known algorithms print no parameters |
| `Tpm12Layouts.KeyParmsReadBack` | service/biz/tpm12_utils.go:327-391 | which key parameters the parser reads back, whatever follows |
| `Tpm12Layouts.OtherAlgorithmsRejected` | service/biz/tpm12_utils.go:327-391 | no other algorithm is parsed |
| `Tpm12Layouts.PubKeyLayout` | service/biz/tpm12_utils.go:989-1122 | TPM_PUBKEY: the parameters, the length of the key, the key |
| `Tpm12Layouts.SymmetricKeyBytesLayout` | service/biz/tpm12_utils.go:864-888 | TPM_SYMMETRIC_KEY: algorithm, scheme 0x00FF, 16-bit length, key; and it is read back |
| `Tpm12Layouts.IdentityContentsLayout` | service/biz/tpm12_utils.go:1125-1144 | TPM_IDENTITY_CONTENTS: four version bytes, ordinal, digest, key |
| `Tpm12Layouts.AttestationLayout` | service/biz/tpm12_utils.go:912-935 | TPM_SYM_CA_ATTESTATION: size of the credential, parameters, credential |
| `Tpm12Layouts.IdentityReqFields` | service/biz/tpm12_utils.go:394-454 | TPM_IDENTITY_REQ: asymmetric size, symmetric size, both algorithms and both blobs in that order, read back |
| `Tpm12Layouts.IdentityProofSizes` | service/biz/tpm12_utils.go:503-560 | TPM_IDENTITY_PROOF: 1.1.0.0 and the five sizes, each at its offset |
| `Tpm12Identity.IdentityReqExact` | service/biz/tpm12_utils.go:394-454 | TPM_IDENTITY_REQ is accepted, giving q, exactly when the input is the encoding of a well-formed q followed by zero or more 0x00 bytes |
| `Tpm12Identity.IdentityReqIgnoresZeros` | service/biz/tpm12_utils.go:438-451 | appending zeros to an accepted request never changes the result |
| `Tpm12Identity.IdentityReqUnique` | service/biz/tpm12_utils.go:394-454 | two accepted inputs with equal results differ only in trailing zeros |
| `Tpm12Identity.IdentityProofExact` | service/biz/tpm12_utils.go:503-591 | TPM_IDENTITY_PROOF is accepted, giving p, exactly when the input is the encoding of a well-formed p: version 1.1.0.0, non-empty binding, matching sizes, nothing left |
| `Tpm12Identity.IdentityProofOffsets` | service/biz/tpm12_utils.go:512-588 | each payload sits at the sum of the sizes before it, counted from the end of the variable-length AIK, and the last one ends the input |
| `Tpm12Identity.SymmetricKeyExact` | service/biz/tpm12_utils.go:457-500 | TPM_SYMMETRIC_KEY is accepted, giving k, exactly when the input is the layout of a well-formed k |
| `Tpm12Codec.ParseTpmStructVer` | service/biz/tpm12_utils.go:147-156 | the cursor parser returns what the decoder returns and stops where it stops |
| `Tpm12Codec.ParseSymmetricKeyParms` | service/biz/tpm12_utils.go:237-274 | accepts and returns exactly what the decoder of AES key parameters does |
| `Tpm12Codec.ParseRSAKeyParms` | service/biz/tpm12_utils.go:277-314 | accepts and returns exactly what the decoder of RSA key parameters does |
| `Tpm12Codec.ParseKeyParmsFromReader` | service/biz/tpm12_utils.go:327-391 | on the shared cursor: same result as the decoder, cursor exactly at its remainder |
| `Tpm12Codec.ParseStorePubKeyFromReader` | service/biz/tpm12_utils.go:617-638 | on the shared cursor: same result as the decoder, cursor exactly at its remainder |
| `Tpm12Codec.ParsePubKeyFromReader` | service/biz/tpm12_utils.go:595-614 | on the shared cursor: same result as the decoder, cursor exactly at its remainder |
| `Tpm12Codec.IgnoreTrailingZeros` | service/biz/tpm12_utils.go:438-451 | the loop over the leftover accepts exactly the all-zero ones |
| `Tpm12Codec.ParseIdentityRequest` | service/biz/tpm12_utils.go:394-454 | the imperative parser is the decoder IdentityReqExact is about, errors included |
| `Tpm12Codec.ParseSymmetricKey` | service/biz/tpm12_utils.go:457-500 | the imperative parser is the decoder SymmetricKeyExact is about |
| `Tpm12Codec.ParseIdentityProof` | service/biz/tpm12_utils.go:503-591 | the imperative parser is the decoder IdentityProofExact is about |
| `Tpm12Codec.SerializeStorePubKey` | service/biz/tpm12_utils.go:989-998 | the buffer holds the TPM_STORE_PUBKEY layout |
| `Tpm12Codec.SerializeRSAKeyParms` | service/biz/tpm12_utils.go:1001-1020 | the buffer holds the RSA parameter layout, or the length does not fit |
| `Tpm12Codec.SerializeSymmetricKeyParms` | service/biz/tpm12_utils.go:1023-1042 | the buffer holds the AES parameter layout, or the length does not fit |
| `Tpm12Codec.SerializeKeyParms` | service/biz/tpm12_utils.go:1045-1101 | the buffer holds the layout the algorithm selects; absent parameters serialize to nothing |
| `Tpm12Codec.SerializePubKey` | service/biz/tpm12_utils.go:1105-1122 | the buffer holds the layout PubKeyExact is about |
| `Tpm12Codec.SerializeIdentityContents` | service/biz/tpm12_utils.go:1125-1144 | the buffer holds version, ordinal, unprefixed digest and key |
| `Tpm12Codec.SerializeSymmetricKey` | service/biz/tpm12_utils.go:864-888 | the buffer holds the layout of a validated symmetric key |
| `Tpm12Codec.SerializeAsymCAContents` | service/biz/tpm12_utils.go:891-909 | the buffer holds the session key and the digest |
| `Tpm12Codec.SerializeSymCAAttestation` | service/biz/tpm12_utils.go:912-935 | the buffer holds credential size, key parameters and credential |
| `ByteStreams.ReadUint32` | service/biz/tpm20_utils.go:125-135 | reads the four bytes at the cursor or fails for lack of them |
| `ByteStreams.ReadNonZeroUint32` | service/biz/tpm20_utils.go:109-122 | the same, refusing zero |
| `ByteStreams.ReadUint16` | service/biz/tpm12_utils.go:317-324 | reads the two bytes at the cursor or fails for lack of them |
| `ByteStreams.ReadBytes` | service/biz/tpm20_utils.go:138-154 | reads exactly the requested bytes or fails for lack of them |
| `BigEndian.ValueOfMinimal` | service/biz/tpm12_utils.go:938-961 | the minimal big-endian bytes of a natural number have that value |
| `BigEndian.MinimalLength` | service/biz/tpm12_utils.go:1147-1196 | their number is the bit length over 8, rounded up |
| `BigEndian.NetworkOrder` | service/biz/tpm12_utils.go:317-324 | 16- and 32-bit numbers are written most significant byte first |
| `BigEndian.ValueOfFirst` | service/biz/tpm12_utils.go:949-954 | of a number of any length the first byte counts most |
| `BigEndian.BitLenExact` | service/biz/tpm12_utils.go:1165-1169 | the bit length is the position of the highest bit set |
| `RsaKeys.RsaCycleExact` | service/biz/tpm12_utils.go:1147-1196 | construct, serialize, parse (in front of any tail) and convert gives back exactly (N, E) and the tail if and only if N > 0, its bit length fits 32 bits and 1 <= E < 2^32, the omitted 65537 included |
| `RsaKeys.ConstructedKey` | service/biz/tpm12_utils.go:1147-1196 | a constructed key stores ceil(bits / 8) bytes, converts back to the absolute N and E modulo 2^32, and is well formed exactly when N is not zero |
| `RsaKeys.ConstructedParms` | service/biz/tpm12_utils.go:1147-1196 | the parameters of a constructed key: algorithm 1, encryption scheme 3, signature scheme 2, the length of |N| in bits, two primes, E modulo 2^32 in four bytes, absent exactly when that is 65537; the key is |N| without leading zeros |
| `RsaKeys.ConvertsExactly` | service/biz/tpm12_utils.go:938-961 | a TPM key converts exactly when it is RSA with parameters, to its modulus and its exponent modulo 2^64, 65537 when absent |
| `RsaKeys.ConstructSucceeds` | service/biz/tpm12_utils.go:1147-1176 | construction succeeds exactly for a present modulus of 32-bit bit length and an exponent up to 2^32 - 1 that is not a multiple of 2^32 |
| `IdentityBinding.SignedContentsBytes` | service/biz/tpm12_utils.go:1125-1227 | the signed bytes spelled out: 1.1.0.0, ordinal 0x79, SHA-1 of the letters "Identity" and the printed issuer key, the printed AIK |
| `IdentityBinding.LabelPreimageInjective` | service/biz/tpm12_utils.go:1199-1227 | the preimage "Identity" plus the serialized issuer key determines the absolute N and E modulo 2^32, hence the key itself when N > 0 and 1 <= E < 2^32 |
| `IdentityBinding.IdentityContentsInjective` | service/biz/tpm12_utils.go:1125-1144 | serialized identity contents with a 20-byte digest and a parsed AIK determine the contents, although the digest has no length prefix |
| `IdentityBinding.SignedBytesDetermineIdentities` | service/biz/tpm12_utils.go:1125-1227 | bindings over equal signed bytes name the same AIK and, unless SHA-1 collides on the two preimages, issuer keys with the same absolute N and E modulo 2^32, hence the same key when N > 0 and 1 <= E < 2^32 |
| `AesCbc.EncryptWithAES` | service/biz/tpm12_utils.go:726-786 | pads, encrypts and returns the IV in the key parameters, with the same rejections |
| `AesCbc.DecryptWithSymmetricKey` | service/biz/tpm12_utils.go:789-841 | finds the IV, decrypts and unpads, with the same rejections |
| `AesCbc.XorBlockIsBitwise` | service/biz/tpm12_utils.go:763-764 | the exclusive or in CBC, bit by bit |
| `AesCbc.CbcEncryptBlocks` | service/biz/tpm12_utils.go:763-764 | CBC block by block: each ciphertext block is the cipher of the plaintext block xored with the IV or with the ciphertext block before it |
| `AesCbc.CbcDecryptBlocks` | service/biz/tpm12_utils.go:822-826 | the converse: each plaintext block is the deciphered block xored with the IV or with the ciphertext block before it |
| `AesCbc.EncryptExact` | service/biz/tpm12_utils.go:706-786 | encryption accepts exactly non-empty data under an AES key of 16, 24 or 32 bytes with the CBC scheme, and returns the CBC ciphertext of the data padded to whole blocks, with parameters that carry the IV |
| `AesCbc.RemovePadding` | service/biz/tpm12_utils.go:828-840 | the loop over the padding accepts exactly what Unpad does |
| `AesCbc.UnpadExact` | service/biz/tpm12_utils.go:828-840 | unpadding gives out exactly when the plaintext is out followed by p bytes of value p, for some p from 1 to 255 |
| `AesCbc.DecryptUndoesEncrypt` | service/biz/tpm12_utils.go:726-841 | for every plaintext encryption accepts, decryption gives it back, with the IV in the key parameters and with the IV in front of the ciphertext |
| `AesCbc.DecryptExact` | service/biz/tpm12_utils.go:789-841 | decryption gives out exactly under the CBC scheme and an AES key size, for an IV in the parameters or in front, and a non-empty whole number of blocks whose CBC plaintext is out followed by p bytes of value p, for some p from 1 to 255 |
| `AesCbc.EncryptUndoesDecrypt` | service/biz/tpm12_utils.go:726-841 | re-encrypting a non-empty output under the same key and IV reproduces the ciphertext if and only if at most one block of padding was removed |
| `AesCbc.TwoBlocksOfPaddingLost` | service/biz/tpm12_utils.go:726-841 | the failing side: for every key, IV and non-empty whole number of blocks, the ciphertext of the data with 32 bytes of value 32 behind it decrypts to the data, and re-encrypting gives a ciphertext one block shorter |
| `AikEnvelope.OpenRequestExact` | service/biz/enrollz_biz.go:663-700 | a request opens to a proof exactly when it is the encoding of a request, and zeros, whose asymmetric blob decrypts, under OAEP with an empty label or PKCS #1 v1.5, to the encoding of a session key under which the symmetric blob decrypts to the encoding of that proof |
| `AikEnvelope.AikSignatureAcceptedExactly` | service/biz/tpm12_utils.go:965-986 | a signature is accepted exactly when the key converts and the RSA primitive accepts it, under SHA-1 for signature scheme 2 and no hash for scheme 3; otherwise it is an error, never false |
| `AikEnvelope.PrivateKeyDecryptsExactly` | service/biz/tpm12_utils.go:663-676 | which ciphertexts open: RSA, OAEP with an empty label or PKCS #1 v1.5 |
| `AikEnvelope.PublicKeyEncryptsExactly` | service/biz/tpm12_utils.go:641-660 | what is sealed to a TPM: non-empty data under RSA-OAEP with the label "TCPA", for a non-zero modulus |
| `AikEnvelope.HonestRequestOpens` | service/biz/enrollz_biz.go:663-700 | a request a TPM builds around a proof opens to that proof: the session key, of any AES size, under OAEP or PKCS #1 v1.5, any well-formed key parameters, the IV in them or in front of the ciphertext, any trailing zeros |
| `AikEnvelope.AikCertBlobBuilt` | service/biz/tpm12_utils.go:912-935 | the certificate blob can be built exactly for non-empty certificates whose padded length fits 32 bits, and splits into its own key parameters and ciphertext |
| `AikEnvelope.EnvelopeOpens` | service/biz/enrollz_biz.go:766-839 | the device holding the endorsement key and the AIK reads out of the two blobs exactly the issued certificate, for every certificate, session key and IV |
| `AikStream.VerifyRequest` | service/biz/enrollz_biz.go:663-732 | succeeds exactly when every step from parsing to the binding check does, and returns the proof |
| `AikStream.SendIssuerKey` | service/biz/enrollz_biz.go:614-647 | any run of this part is a history NextStep allows, finished with the reported error or ending in the sent issuer key |
| `AikStream.RequestIdentity` | service/biz/enrollz_biz.go:614-732 | the same up to a verified identity proof |
| `AikStream.SendCertificate` | service/biz/enrollz_biz.go:734-839 | the same for issuing, sealing and sending |
| `AikStream.SendSealed` | service/biz/enrollz_biz.go:808-839 | the same for fetching the endorsement key, sealing to it and sending |
| `AikStream.ConfirmAndFinalize` | service/biz/enrollz_biz.go:841-885 | the same for the echo, Finalize and the end of the stream |
| `AikStream.RotateAIKCert` | service/biz/enrollz_biz.go:607-885 | whatever the environment answers, the calls made are a finished run of NextStep with the returned result |
| `AikProtocol.MessagesFollowScript` | service/biz/enrollz_biz.go:607-885 | in every history the messages sent are a prefix of issuer key, certificate payload, Finalize, and how long a prefix is fixed by the number of calls |
| `AikProtocol.VerifiedProofExactly` | service/biz/enrollz_biz.go:663-732 | a request is accepted with a proof exactly when the five opening steps lead to it and its binding verifies over SHA-1 of the serialized contents for this run's issuer key |
| `AikProtocol.AikPemExactly` | service/biz/enrollz_biz.go:734-753 | the PEM is that of the public key the AIK converts to |
| `AikProtocol.EnvelopeExactly` | service/biz/enrollz_biz.go:766-806 | the envelope: the certificate under a new AES-256 key as an attestation, that key with the AIK's digest as key material |
| `AikProtocol.CaAskedOnlyForVerifiedAik` | service/biz/enrollz_biz.go:649-764 | for any utilities, the CA is asked once, for the answering card and the PEM of the key of the AIK whose proof the request holds and whose binding verified for this run's issuer key |
| `AikProtocol.PayloadSealedToFetchedKey` | service/biz/enrollz_biz.go:766-839 | the payload goes out only after the endorsement key was fetched by the answering card's serial and manufacturer; it is the certificate issued for the verified AIK under a new AES-256 key, and that key material encrypted to the fetched key |
| `AikProtocol.FinalizeOnlyOnEqualCerts` | service/biz/enrollz_biz.go:841-873 | Finalize is sent only when the device echoed exactly the non-empty certificate the CA issued |
| `AikProtocol.SuccessImpliesFinalized` | service/biz/enrollz_biz.go:862-885 | success implies all three messages were sent and the stream ended or was closed |
| `AikHonestRun.CaAskedOnlyForBoundAik` | service/biz/enrollz_biz.go:649-764 | with the default utilities, the CA is asked only for the key of an AIK for which the RSA primitive accepts the request's binding as a signature, under the hash of its scheme, over SHA-1 of the identity contents for this run's issuer key |
| `AikHonestRun.NewKeyExactly` | service/biz/tpm12_utils.go:679-703 | a new key of 16, 24 or 32 random bytes for algorithms 6, 8 and 9, and none for others |
| `AikHonestRun.PayloadOpens` | service/biz/enrollz_biz.go:766-839 | with the default utilities and an endorsement key that can seal the key material, the payload is built for every encodable certificate, and the honest device reads that certificate out of it |
| `AikHonestRun.HonestRunFinalizes` | service/biz/enrollz_biz.go:607-885 | in every run with an honest device, whichever request format it uses, and no dependency failure the comparison succeeds, Finalize is sent and the result is success |
| `OwnerCerts.IssueOwnerIDevIDCert` | service/biz/enrollz_biz.go:395-414 | no call and an empty string when rotation is skipped or the key is empty, an error without a profile, else exactly one CA call for this card and key |
| `OwnerCerts.IssueOwnerIakCert` | service/biz/enrollz_biz.go:381-393 | exactly one CA call for this card and key |
| `OwnerCerts.RotateOIakCert` | service/biz/enrollz_biz.go:416-452 | the requests sent are those of the mode in list order, stopping at the first failure |
| `OwnerCerts.IssueForCard` | service/biz/enrollz_biz.go:463-492 | success with an update bound to the card and exactly the CA calls behind it, or the calls up to the one that stopped it |
| `OwnerCerts.IssueAndRotateOwnerCerts` | service/biz/enrollz_biz.go:455-496 | for lists of any length, the calls made are a run of the issue-and-rotate relation with the returned result |
| `OwnerCertsProofs.NoRotationBeforeAllIssued` | service/biz/enrollz_biz.go:455-496 | in every run the CA calls come first, and any rotation request means the calls for all cards were made and answered |
| `OwnerCertsProofs.CaUnaskedExactly` | service/biz/enrollz_biz.go:463-492 | in every run the CA goes unasked if and only if there is no card or the first one is rejected by validation or for want of a profile, whatever the later cards |
| `OwnerCertsProofs.BadCardStopsRotation` | service/biz/enrollz_biz.go:463-492 | a rejected card anywhere in the list fails the run before any rotation and before any certificate past it is issued |
| `OwnerCertsProofs.OwnerCertsSucceedExactly` | service/biz/enrollz_biz.go:455-496 | a run succeeds if and only if there are cards, none is rejected and no call failed |
| `OwnerCertsProofs.SkippedAsksNoIDevID` | service/biz/enrollz_biz.go:395-414 | with the oIDevID rotation skipped no run asks the CA for one |
| `OwnerCertsProofs.IakFollowsIDevID` | service/biz/enrollz_biz.go:463-492 | the order of the CA calls: an oIDevID is followed at once by the oIAK of the same card |
| `OwnerCertsProofs.UpdatesBoundToCards` | service/biz/enrollz_biz.go:381-496 | the i-th update carries the i-th selection, an oIAK issued for that card's id and IAK key, and an oIDevID issued for that card's IDevID key under a non-empty profile, or the empty string when skipped or without a key |
| `OwnerCertsProofs.EmptyExactlyWhenNotRequested` | service/biz/enrollz_biz.go:395-414 | in every run that reaches the device, "the oIDevID is empty exactly when rotation is skipped or the key is empty" holds if and only if the CA issued no empty oIDevID |
| `OwnerCertsProofs.EmptyAnswerRotated` | service/biz/enrollz_biz.go:395-496 | a successful run in which it fails: the CA answers an oIDevID request with an empty certificate |
| `OwnerCertsProofs.PerCardPrefix` | service/biz/enrollz_biz.go:436-451 | the first k per-card requests leave any device in the state the first k updates do |
| `OwnerCertsProofs.AtomicAgreesWithPerCard` | service/biz/enrollz_biz.go:416-452 | for any list of updates and any way of installing one, the batched request and the per-card requests leave the device in the same state |
| `OwnerCertsProofs.FailedRunSentPrefix` | service/biz/enrollz_biz.go:436-451 | a per-card run that fails at request k has sent exactly the first k requests in list order, and the first k - 1 are what is installed |
| `OwnerCertsProofs.DeviceHoldsIssuedCerts` | service/biz/enrollz_biz.go:455-496 | after a successful run over distinct selections, in either mode, a map-of-cards device holds for every card an oIAK issued for that card's id and key; its oIDevID is the one it had when none was requested or the CA answered with an empty one, else the one issued for that card's IDevID key |
| `VendorEnrollment.VerifyIdentityWithVendorCerts` | service/biz/enrollz_biz.go:330-379 | the two calls for one card, or the calls up to the one that failed |
| `VendorEnrollment.EnrollControlCard` | service/biz/enrollz_biz.go:280-317 | every run is a run of the vendor workflow with IDevID verification always on; with the oIDevID rotation skipped the CA is never asked for one |
| `VendorEnrollment.RotateOwnerIakCert` | service/biz/enrollz_biz.go:543-580 | every run is a run of the vendor workflow with IDevID verification and rotation tied to one flag; without it the CA is never asked for an oIDevID |
| `VendorEnrollment.PhasesInOrder` | service/biz/enrollz_biz.go:280-317 | nothing is issued before every selected card is verified and the atomic flags agree, nothing is rotated before every card is issued for, and an earlier failure sends no rotation |
| `VendorEnrollment.ChecksAt` | service/biz/enrollz_biz.go:330-379 | the two calls of each verified card in order, with all arguments and answers |
| `VendorEnrollment.RotatedCertsComeFromVerifiedKeys` | service/biz/enrollz_biz.go:280-580 | whenever anything is rotated, the i-th pair of calls asked the i-th selected card and gave the verifier its reported id, its IAK certificate and its IDevID certificate, each in its role; the i-th update goes to that selection with certificates issued for that id and the keys the verifier answered |
| `VendorEnrollment.RotatesInReportedMode` | service/biz/enrollz_biz.go:307-317 | the requests are the batched one or the per-card ones, as all cards report, under the given profile |
| `VendorEnrollment.VendorSucceedsExactly` | service/biz/enrollz_biz.go:280-580 | a run succeeds if and only if there are one or two cards, no call failed, all cards report the same mode and none is rejected; any other number of cards fails without a call |
| `VendorReference.PoolGrowsByEarlierCalls` | service/biz/tpm_cert_verifier.go:257-286 | the pool behind any recorded calls is the caller's plus every certificate but the first of every chain they tried that parses, since all share one options value |
| `VendorReference.RotatedKeysOfVerifiedLeaves` | service/biz/enrollz_biz.go:280-580 | with the reference verifier's answers to the recorded calls: whenever anything is rotated, the i-th card's oIAK was issued for the key of the leaf of its own IAK chain, and its oIDevID, if it has one, for that of its own IDevID chain; the leaves name the reported card or its chassis and verified with the pool grown so far |
| `CsrIdevid.ParseTCGCSRIDevIDContent` | service/biz/tpm20_utils.go:686-919 | accepts exactly when the length is 64 + hash size + the sum of the 13 payload sizes, the mandatory values are not zero and the inner decoders succeed; every returned field is decoded from the slice at the prefix sum of the earlier sizes |
| `CsrIdevid.ParsePayloads` | service/biz/tpm20_utils.go:797-918 | the payload half of the parser, on the shared cursor: accepts exactly when the sizes fill the input and the inner decoders succeed |
| `CsrIdevid.ParseFirstPayloads` | service/biz/tpm20_utils.go:797-853 | payloads up to attestPub: the cursor ends at their prefix sum, the kept ones are the slices there |
| `CsrIdevid.ParseLastPayloads` | service/biz/tpm20_utils.go:855-916 | the payloads after attestPub: accepted exactly when they decode and end the input |
| `CsrIdevid.ReadSizes` | service/biz/tpm20_utils.go:718-795 | the thirteen sizes, the mandatory ones not zero |
| `CsrEncoding.EncodingHasLayout` | service/biz/tpm20_utils.go:686-919 | printing a header and thirteen payloads gives an input whose layout is accepted exactly when the mandatory values are there, and whose fields then are those payloads |
| `CsrEncoding.EncodingParsesExactly` | service/biz/tpm20_utils.go:686-919 | the whole parser on any encoding of thirteen payloads: it accepts exactly when version, algorithm, hash and payloads 0, 1, 4, 5, 9, 10 and 11 are there, and the result has each field decoded from its own payload |
| `CsrEncoding.LayoutIsEncoding` | service/biz/tpm20_utils.go:686-919 | every input of that layout is the printing of its own header and payloads, so nothing is ambiguous |
| `Tpm20Checks.EkTemplateBack` | service/biz/tpm20_utils.go:273-298 | the template of an accepted endorsement key reads back as the same exponent and modulus, fills 256 bytes, and zero stands for 65537 and nothing else |
| `Tpm20Checks.EkAcceptedExactly` | service/biz/tpm20_utils.go:174-194 | the endorsement keys accepted: moduli of 2041 to 2048 bits, odd exponents from 3 to 2^31 - 1, both ends included |
| `Tpm20Checks.HmacAcceptedExactly` | service/biz/tpm20_utils.go:335-371 | an HMAC is accepted exactly when message and signature are not empty, the signature is a SHA-256 HMAC, the key has bits, and the digest is that of SHA-256 of the message under them |
| `Tpm20Checks.CertifyInfoAcceptedExactly` | service/biz/tpm20_utils.go:374-406 | a certify info is accepted for a key exactly when it is TPM-generated, a certification, of the key's name, under a different qualified name |
| `Tpm20Checks.IakAcceptedExactly` | service/biz/tpm20_utils.go:437-470 | the IAKs accepted: the eight attributes of a restricted fixed signing key, named under SHA-256 or SHA-384 |
| `Tpm20Checks.IdevidAcceptedExactly` | service/biz/tpm20_utils.go:638-681 | the IDevID keys accepted: the eight attributes of an unrestricted fixed signing key, ECDSA on P-384 named under SHA-384, under the one template |
| `Tpm20Checks.SignatureAcceptedExactly` | service/biz/tpm20_utils.go:473-636 | a signature is accepted exactly when the key declares its scheme and the primitive of that scheme accepts it over the hash of the message |
| `Tpm20Checks.WrapsExactly` | service/biz/tpm20_utils.go:301-332 | the HMAC key is sealed exactly when the endorsement key is acceptable, as a duplicate for its template under the key's name |
| `HmacEnrollment.SendChallenge` | service/biz/enrollz_biz.go:971-1008 | any run of this part is a history NextStep allows |
| `HmacEnrollment.VerifyIdentityWithHMACChallenge` | service/biz/enrollz_biz.go:971-1048 | whatever the device and the RoT database answer, the calls made are a finished run of NextStep with the returned result |
| `HmacEnrollment.AcceptanceRestsOn` | service/biz/enrollz_biz.go:971-1181 | an accepted identity rests on an endorsement key fetched for the returned card's serial and supplier, a generated HMAC key wrapped to exactly that key and sent to the selected card with that key's type, an IAK the HMAC response certifies and an IDevID key the CSR proves with that IAK |
| `HmacEnrollment.ChallengeAcceptedExactly` | service/biz/enrollz_biz.go:1010-1123 | the challenge is passed with iak exactly when the response's HMAC verifies over its own certify info and that same info certifies the acceptable key iak |
| `HmacEnrollment.CsrAcceptedExactly` | service/biz/enrollz_biz.go:1126-1181 | the CSR is accepted with idevid exactly when its contents parse and name idevid and both signatures, the certified name, the attributes and the serial check out |
| `HmacEnrollment.SerialOfReturnedCard` | service/biz/enrollz_biz.go:1176-1178 | the serial in an accepted CSR is that of the CSR response's card id, and so the returned card's if and only if the two ids agree on it |
| `HmacEnrollment.ForeignSerialAccepted` | service/biz/enrollz_biz.go:1176-1178 | an accepted run in which they differ |
| `HmacWorkflow.ChallengeCard` | service/biz/enrollz_biz.go:923-950 | one card: a finished verification with both keys converted, or the calls up to the failure |
| `HmacWorkflow.EnrollSwitchWithHMACChallenge` | service/biz/enrollz_biz.go:900-958 | every run is a run of the HMAC workflow |
| `HmacWorkflow.HmacPhasesInOrder` | service/biz/enrollz_biz.go:900-958 | nothing is issued before every selected card passed its challenge, rotation is one atomic request after all cards are issued for, and an earlier failure sends no rotation |
| `HmacWorkflow.HmacSucceedsExactly` | service/biz/enrollz_biz.go:900-958 | a run succeeds if and only if there are one or two cards that all pass, none is rejected, and no issuing or rotating call failed |
| `HmacWorkflow.RotatedCertsComeFromChallengedKeys` | service/biz/enrollz_biz.go:900-958 | the i-th update goes to the i-th selection with certificates issued for the card id and the keys that card's challenge established |
| `HmacEndToEnd.RotatedCertsAreForTpmKeys` | service/biz/enrollz_biz.go:900-1181 | end to end over all runs of TPMs, network and workflow: whenever anything is rotated, each selected card's oIAK and oIDevID were issued for keys on the one TPM that holds the endorsement key the RoT database has for that card |
| `ChainOfTrustProofs.InvariantHolds` | service/biz/enrollz_biz.go:971-1181 | every world any run of TPMs, network and sessions reaches keeps the invariant: fixedTPM keys stay put, service secrets stay sealed to the fetched key, HMACs and restricted signatures over certifications come from TPM2_Certify |
| `ChainOfTrustProofs.ChallengeProvesTpm` | service/biz/enrollz_biz.go:1010-1123 | an accepted challenge means a TPM holding the fetched endorsement key has the IAK resident, restricted and fixed |
| `ChainOfTrustProofs.MacProvesTpm` | service/biz/enrollz_biz.go:1010-1029 | an HMAC under a session's key over a certification of a key was made by a TPM that has that key and the endorsement key the session fetched |
| `ChainOfTrustProofs.CsrCarries` | service/biz/enrollz_biz.go:1126-1181 | an accepted CSR carries a genuine signature by the IAK over a certification naming the IDevID key, and one by the IDevID key |
| `ChainOfTrustProofs.SignatureProvesIdevid` | service/biz/enrollz_biz.go:1146-1162 | such a signature by a resident restricted fixedTPM IAK means the IDevID key was certified on that same TPM, and neither key is on another |
| `ChainOfTrustProofs.DefaultChecksMean` | service/biz/tpm20_utils.go:301-636 | what acceptance by the default utilities implies for the chain of trust; the Tpm20Checks rows say exactly what they accept |
| `ChainOfTrustProofs.ChainOfTrustHolds` | service/biz/enrollz_biz.go:971-1181 | over all runs: whenever a session returns (card, iak, idevid), some TPM holds the endorsement key the RoT database has for that card's serial and supplier, iak is its resident restricted fixedTPM key, and idevid is a fixedTPM key certified by iak on the same TPM; neither is on any other TPM |
| `ChainOfTrustHonest.HonestTpmAccepted` | service/biz/enrollz_biz.go:971-1181 | the other direction: from any reachable world in which a session is about to challenge, a TPM with the fetched endorsement key, an IAK and an IDevID key can, by the rules, bring the service to return exactly this card, iak and idevid |
| `ChainOfTrustHonest.DefaultTpmAccepted` | service/biz/enrollz_biz.go:971-1181 | the same with the default utilities and no assumption about the checks: a TPM with the fetched endorsement key, a fixed restricted IAK and a fixed P-384 IDevID key that answers with its certification, a SHA-256 HMAC and signatures in its keys' schemes |
| `ChainOfTrustHonest.ForeignCsrAccepted` | service/biz/enrollz_biz.go:971-1181 | among them TPMs whose CSR names another card: the service returns the card whose endorsement key it fetched with a CSR for a different serial |
| `CertChain.ParseCertChain` | service/biz/tpm_cert_verifier.go:290-325 | terminates and returns the header-free CERTIFICATE blocks in order, or fails when one does not parse or there is none |
| `CertChain.ChainOfEncodedBlocks` | service/biz/tpm_cert_verifier.go:290-325 | concatenated PEM blocks come back in order, leaf first, without the other blocks |
| `CertChain.ChainOfEncodedParsesExactly` | service/biz/tpm_cert_verifier.go:290-325 | the chain parses exactly when there is a header-free CERTIFICATE block and all of them parse, into those certificates |
| `CertChain.VerifyAndParsePemCert` | service/biz/tpm_cert_verifier.go:257-286 | the leaf, verified with the pool grown by the chain and any key usage; a nil pool stays nil for the caller, another grows by exactly the non-leaf certificates of a chain that parses |
| `CertChain.VerifiedLeafExactly` | service/biz/tpm_cert_verifier.go:257-286 | exactly the leaves accepted: the first certificate, verified for any key usage with the caller's pool and the rest of the chain, or without a pool with a new one holding the rest, if any |
| `CertChain.AddIntermediates` | service/biz/tpm_cert_verifier.go:268-270 | the loop adds every certificate but the first |
| `CertChain.PoolAccumulates` | service/biz/tpm_cert_verifier.go:257-286 | over any sequence of verifications sharing one options value, a nil pool stays nil and another equals its start plus every non-leaf certificate of every chain that parsed |
| `CertChain.SplitAtMarker` | service/biz/tpm_cert_verifier.go:98-107 | splitting cuts at the first marker |
| `CertChain.SerialAfterMarker` | service/biz/tpm_cert_verifier.go:98-107 | with one marker the text after it is the serial, with none the whole text, with two or more the text before the first |
| `CertChain.RsaKeyAcceptedFrom2041Bits` | service/biz/tpm_cert_verifier.go:339-344 | the exact RSA size accepted |
| `CertChain.KeyAcceptedExactly` | service/biz/tpm_cert_verifier.go:328-369 | exactly the keys accepted: RSA from 2041 bits, elliptic curves from 256, no other kind |
| `CertChain.CheckedCertExactly` | service/biz/tpm_cert_verifier.go:210-254 | exactly the certificates accepted for a card: the leaf names its serial or its chassis serial and its key is accepted |
| `CertChain.CheckedPairExactly` | service/biz/tpm_cert_verifier.go:110-195 | exactly the pairs accepted: the IAK certificate is, and the IDevID certificate is absent or its leaf names the same serial and has an accepted key |
| `CertChain.VerifyTpmCert` | service/biz/tpm_cert_verifier.go:210-254 | the key of the verified leaf whose serial is the card's or the chassis's, and the caller's pool afterwards |
| `CertChain.VerifyIakAndIDevIDCerts` | service/biz/tpm_cert_verifier.go:110-195 | both keys, the second verification seeing what the first added to the caller's pool, and the pool afterwards in every case |

## Left out

- go-tpm's marshalling, object names, key conversion and PEM, X.509 and ASN.1 are arbitrary functions; TPM 1.2 algorithm identifiers are those of section 4.8 of TPM Main Part 2, because go-tpm is not part of this model.
- AES rounds, RSA, ECDSA, OAEP, SHA-1, SHA-256 and HMAC are arbitrary functions with the laws listed above; unforgeability is symbolic.
- Randomness: issuer keys, session keys, IVs, HMAC keys and OAEP coins are parameters or oracle answers, fixed for a run; failures of the random source are failures of the call.
- Checks for a nil request or nil dependencies, and a nil response returned without an error by a dependency, are not modelled; nil card ids, selections, keys, moduli, challenge responses and CSR responses are.
- Error values keep their kind where it matters and lose their text and wrapping; two conversion errors joined into one count as the first.
- Byte slices are values: aliasing through append is not modelled, and after a failed parse the position of the cursor is not stated.
- An IV that is neither absent nor 16 bytes makes the Go CBC decrypter panic; the model returns a Panic failure there.
- Contexts, the 10-second challenge timeout and logging: a timeout is an oracle failure.
- `CsrIdevid` keeps the sizes in a list indexed by payload instead of thirteen named variables.
- `VendorEnrollment.VerifyThenRotate`, `HmacWorkflow.ChallengeCards`, `AikStream.SendSealed` and similar methods are the shared or split bodies of source functions.
- The HMAC key's public area travels in the challenge as a value, not as its marshalled bytes.
- What a device does with an update without an oIDevID is the device's affair; `InstallOnCard` keeps the installed one.
- A nil modulus inside a parsed certificate is not modelled, because parsing never yields one.
- The CSR's own endorsement key certificate, its hash field and its pad bytes are parsed and not checked, as in the code.
- The composite digest loop, the gRPC service, the generated protocol code, the build files and the emulator.
