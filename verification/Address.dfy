/** The checks `validate_monero_address` makes around the Base58 decoder. */
module Address {
  import opened Common
  import opened Base58

  // Keccak-256 is a parameter: any function from byte strings to 32-byte digests.
  type Digest = d: seq<Byte> | |d| == 32 witness seq(32, _ => 0)
  type Hash = seq<Byte> -> Digest

  // Every case is a ValueError; Undecodable wraps the OverflowError of the decoder too.
  datatype AddressError = BadPrefix | BadLength | BadCharacters | Undecodable(cause: DecodeError) | BadChecksum

  function AllowedPrefixes(network: string): set<char> {
    if network == "mainnet" then {'4', '8'}
    else if network == "stagenet" then {'5', '7'}
    else if network == "testnet" then {'9', 'B'}
    else {'4', '8', '5', '7', '9', 'B'}
  }

  /** The regular expression ^[alphabet]+$; in Python `$` also matches before one final newline. */
  predicate MatchesAlphabet(s: string) {
    || (s != "" && InAlphabet(s))
    || (|s| > 1 && s[|s| - 1] == '\n' && InAlphabet(s[..|s| - 1]))
  }

  function Checksum(keccak: Hash, payload: seq<Byte>): seq<Byte> {
    keccak(payload)[..4]
  }

  function CheckDecoded(keccak: Hash, address: string): Result<string, AddressError> {
    match Decode(address)
    case Err(e) => Err(Undecodable(e))
    case Ok(decoded) =>
      if |decoded| < 4 || decoded[|decoded| - 4..] != Checksum(keccak, decoded[..|decoded| - 4])
      then Err(BadChecksum)
      else Ok(address)
  }

  function Validate(keccak: Hash, network: string, environment: string, address: string)
    : Result<string, AddressError>
  {
    ValidateFor(keccak, AllowedPrefixes(network), environment, address)
  }

  function ValidateFor(keccak: Hash, allowed: set<char>, environment: string, address: string)
    : Result<string, AddressError>
  {
    if address == "" || address[0] !in allowed then Err(BadPrefix)
    else if |address| != 95 && |address| != 106 then Err(BadLength)
    else if !MatchesAlphabet(address) then Err(BadCharacters)
    else if environment == "dev" then Ok(address)
    else CheckDecoded(keccak, address)
  }

  /** The address of a payload: the payload and its checksum, encoded. */
  function AddressOf(keccak: Hash, payload: seq<Byte>): string {
    Encode(payload + Checksum(keccak, payload))
  }

  lemma AddressLength(keccak: Hash, payload: seq<Byte>)
    requires |payload| in {65, 73}
    ensures |AddressOf(keccak, payload)| == if |payload| == 65 then 95 else 106
  {
    var bytes := payload + Checksum(keccak, payload);
    EncodedIsDecodable(bytes);
    LengthFromBytes(|AddressOf(keccak, payload)|);
  }

  lemma LengthFromBytes(len: nat)
    requires len % 11 !in {1, 4, 8}
    ensures DecodedLength(len) == 69 ==> len == 95
    ensures DecodedLength(len) == 77 ==> len == 106
  {
    if len % 11 != 0 { TableBound(len % 11); }
  }

  lemma TableBound(len: nat)
    requires 0 < len < 11 && TrailingBytes(len).Some?
    ensures TrailingBytes(len).value == 5 <==> len == 7
  {
  }

  /** What passes the checksum is the address of its own payload. */
  lemma CheckedIsAddress(keccak: Hash, address: string) returns (payload: seq<Byte>)
    requires CheckDecoded(keccak, address).Ok?
    ensures Decode(address).Ok? && |payload| == |Decode(address).value| - 4
    ensures address == AddressOf(keccak, payload)
  {
    var decoded := Decode(address).value;
    payload := decoded[..|decoded| - 4];
    assert payload + decoded[|decoded| - 4..] == decoded;
    EncodeOfDecode(address);
  }

  /** The address of any payload passes the checksum. */
  lemma AddressIsChecked(keccak: Hash, payload: seq<Byte>)
    ensures CheckDecoded(keccak, AddressOf(keccak, payload)).Ok?
  {
    var bytes := payload + Checksum(keccak, payload);
    DecodeOfEncode(bytes);
    assert bytes[..|bytes| - 4] == payload && bytes[|bytes| - 4..] == Checksum(keccak, payload);
  }

  ghost predicate EncodesPayload(keccak: Hash, address: string) {
    exists payload: seq<Byte> :: |payload| in {65, 73} && address == AddressOf(keccak, payload)
  }

  lemma DecodedAddressLength(address: string)
    requires |address| in {95, 106} && Decode(address).Ok?
    ensures |Decode(address).value| == if |address| == 95 then 69 else 77
  {
    LengthOfDecoded(address);
    AddressBytes();
  }

  /** 95 characters carry 69 bytes and 106 carry 77. */
  lemma AddressBytes()
    ensures DecodedLength(95) == 69 && DecodedLength(106) == 77
  {
  }

  /** Each network has two prefixes of its own; with any other name for the network all six are allowed. */
  ghost predicate StartsAllowed(network: string, address: string) {
    && address != ""
    && (network == "mainnet" ==> address[0] == '4' || address[0] == '8')
    && (network == "stagenet" ==> address[0] == '5' || address[0] == '7')
    && (network == "testnet" ==> address[0] == '9' || address[0] == 'B')
    && (network !in {"mainnet", "stagenet", "testnet"} ==> address[0] in {'4', '8', '5', '7', '9', 'B'})
  }

  /** Four bytes at the end that are the first four of the digest of everything before them. */
  ghost predicate EndsInDigest(keccak: Hash, bytes: seq<Byte>) {
    exists payload: seq<Byte>, tail: seq<Byte> :: bytes == payload + tail && StartOfDigest(tail, keccak(payload))
  }

  ghost predicate StartOfDigest(tail: seq<Byte>, digest: Digest) {
    |tail| == 4 && forall i :: 0 <= i < 4 ==> tail[i] == digest[i]
  }

  lemma CheckedEndsInDigest(keccak: Hash, address: string)
    ensures CheckDecoded(keccak, address).Ok? <==> Decode(address).Ok? && EndsInDigest(keccak, Decode(address).value)
  {
    if Decode(address).Ok? {
      var bytes := Decode(address).value;
      if |bytes| >= 4 {
        assert bytes == bytes[..|bytes| - 4] + bytes[|bytes| - 4..];
      }
      forall payload: seq<Byte>, tail: seq<Byte> | bytes == payload + tail && StartOfDigest(tail, keccak(payload))
        ensures payload == bytes[..|bytes| - 4] && tail == bytes[|bytes| - 4..]
        ensures tail == keccak(payload)[..4]
      {
      }
    }
  }

  lemma CheckedIsInAlphabet(keccak: Hash, address: string)
    requires address != "" && CheckDecoded(keccak, address).Ok?
    ensures MatchesAlphabet(address)
  {
    AcceptsExactly(address);
  }

  lemma AcceptedFor(keccak: Hash, allowed: set<char>, environment: string, address: string)
    requires environment != "dev"
    ensures ValidateFor(keccak, allowed, environment, address) == Ok(address)
        <==> && address != "" && address[0] in allowed && (|address| == 95 || |address| == 106)
             && CheckDecoded(keccak, address).Ok?
  {
    if address != "" && CheckDecoded(keccak, address).Ok? { CheckedIsInAlphabet(keccak, address); }
  }

  lemma StartsExactly(network: string, address: string)
    ensures StartsAllowed(network, address) <==> address != "" && address[0] in AllowedPrefixes(network)
  {
  }

  /**
   Outside the dev environment an address is accepted exactly when the network allows its
   prefix, it has one of the two lengths, and it decodes to a payload and the first four bytes
   of the payload's digest.
   */
  lemma AcceptedExactly(keccak: Hash, network: string, environment: string, address: string)
    requires environment != "dev"
    ensures Validate(keccak, network, environment, address) == Ok(address)
        <==> && StartsAllowed(network, address) && (|address| == 95 || |address| == 106)
             && Decode(address).Ok? && EndsInDigest(keccak, Decode(address).value)
  {
    AcceptedFor(keccak, AllowedPrefixes(network), environment, address);
    StartsExactly(network, address);
    CheckedEndsInDigest(keccak, address);
  }

  /** What is refused for what: prefix, length, characters, encoding and checksum, in this order. */
  ghost predicate RefusedFor(keccak: Hash, starts: bool, environment: string, address: string,
                             r: Result<string, AddressError>)
  {
    var sized := |address| == 95 || |address| == 106;
    && (r == Err(BadPrefix) <==> !starts)
    && (r == Err(BadLength) <==> starts && !sized)
    && (r == Err(BadCharacters) <==> starts && sized && !MatchesAlphabet(address))
    && (r.Err? && r.error.Undecodable? ==> environment != "dev" && Decode(address) == Err(r.error.cause))
    && (r == Err(BadChecksum) ==> environment != "dev" && Decode(address).Ok?)
  }

  lemma RefusedExactly(keccak: Hash, network: string, environment: string, address: string)
    ensures RefusedFor(keccak, StartsAllowed(network, address), environment, address,
                       Validate(keccak, network, environment, address))
  {
    StartsExactly(network, address);
    RefusedGiven(keccak, AllowedPrefixes(network), environment, address);
  }

  lemma RefusedGiven(keccak: Hash, allowed: set<char>, environment: string, address: string)
    ensures RefusedFor(keccak, address != "" && address[0] in allowed, environment, address,
                       ValidateFor(keccak, allowed, environment, address))
  {
  }

  lemma CheckedEncodesPayload(keccak: Hash, address: string)
    requires |address| in {95, 106} && CheckDecoded(keccak, address).Ok?
    ensures EncodesPayload(keccak, address)
  {
    var payload := CheckedIsAddress(keccak, address);
    DecodedAddressLength(address);
  }

  lemma EncodedPayloadChecked(keccak: Hash, address: string)
    requires EncodesPayload(keccak, address)
    ensures |address| in {95, 106} && InAlphabet(address) && CheckDecoded(keccak, address).Ok?
  {
    var payload: seq<Byte> :| |payload| in {65, 73} && address == AddressOf(keccak, payload);
    AddressLength(keccak, payload);
    AddressIsChecked(keccak, payload);
  }

  /**
   Outside the dev environment the accepted addresses are exactly the encodings, with
   checksum, of 65- and 73-byte payloads whose first character the network allows.
   */
  lemma ValidExactly(keccak: Hash, network: string, environment: string, address: string)
    requires environment != "dev"
    ensures Validate(keccak, network, environment, address).Ok?
        <==> StartsAllowed(network, address) && EncodesPayload(keccak, address)
  {
    StartsExactly(network, address);
    if Validate(keccak, network, environment, address).Ok? {
      CheckedEncodesPayload(keccak, address);
    }
    if EncodesPayload(keccak, address) {
      EncodedPayloadChecked(keccak, address);
    }
  }

  /**
   In the dev environment the checksum is skipped, and a trailing newline slips through:
   an address that is not over the alphabet is accepted there exactly when it has an allowed
   prefix and length, ends in a newline, and is over the alphabet before it.
   */
  lemma DevAcceptsTrailingNewline(keccak: Hash, network: string, address: string)
    ensures Validate(keccak, network, "dev", address).Ok? && !InAlphabet(address)
        <==> && |address| in {95, 106} && StartsAllowed(network, address)
             && address[|address| - 1] == '\n' && InAlphabet(address[..|address| - 1])
  {
    StartsExactly(network, address);
    if |address| > 0 && address[|address| - 1] == '\n' {
      assert Index('\n') == 58 by { NewlineOutside(); }
    }
  }

  /** One such address. */
  lemma AcceptedWithNewline(keccak: Hash) returns (address: string)
    ensures Validate(keccak, "mainnet", "dev", address).Ok? && !InAlphabet(address)
  {
    address := ['4'] + seq(93, _ => '1') + ['\n'];
    var front := address[..94];
    assert front == ['4'] + seq(93, _ => '1');
    assert Index(ALPHABET[3]) == 3 && Index(ALPHABET[0]) == 0 by {
      IndexOfCharacter(3);
      IndexOfCharacter(0);
    }
    assert InAlphabet(front);
    DevAcceptsTrailingNewline(keccak, "mainnet", address);
  }

  lemma NewlineOutside()
    ensures Index('\n') == 58
  {
    assert forall k :: 0 <= k < 58 ==> '1' <= ALPHABET[k];
  }
}
