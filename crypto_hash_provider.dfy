/** Computing and checking the content hash of a package with one of a
    vetted list of algorithms.

    The hash primitive itself (`CryptoHashUtility.GetHashAlgorithm(name)`
    and its `ComputeHash`) is not part of this model: every operation that
    uses it takes it as a parameter, a deterministic function from an
    algorithm name to a function from bytes to digest bytes. */
module HashProvider {

  import opened Wrappers
  import opened Ascii

  newtype Byte = b: int | 0 <= b < 256

  /** `name => bytes => GetHashAlgorithm(name).ComputeHash(bytes)`. */
  type HashAlgorithmFactory = string -> (seq<Byte> -> seq<Byte>)

  const SHA512HashAlgorithm: string := "SHA512"
  const SHA256HashAlgorithm: string := "SHA256"

  /** The argument error thrown for an algorithm outside the vetted list. */
  datatype ConstructionError = UnsupportedHashAlgorithm(hashAlgorithm: string)

  /** The vetted list: SHA512 and SHA256, compared ordinally ignoring case. */
  predicate IsVetted(name: string)
    ensures IsVetted(name) <==> ToUpper(name) == "SHA512" || ToUpper(name) == "SHA256"
  {
    EqualsIgnoreCase(name, SHA512HashAlgorithm) || EqualsIgnoreCase(name, SHA256HashAlgorithm)
  }

  /** The vetted names, spelled out: "sha" in any casing followed by
      "512" or "256". */
  lemma VettedNameSpelling(name: string)
    ensures IsVetted(name) <==>
              |name| == 6 && name[0] in "sS" && name[1] in "hH" && name[2] in "aA" &&
              (name[3..] == "512" || name[3..] == "256")
  {
    if |name| == 6 {
      assert name[3..] == [name[3], name[4], name[5]];
    }
  }

  /** The algorithm name a provider keeps, or the error its construction
      throws: a null or empty name means SHA512, a vetted name is kept
      exactly as written, anything else is refused. */
  function SelectAlgorithm(hashAlgorithm: Option<string>): (r: Result<string, ConstructionError>)
    ensures r.Success? <==> hashAlgorithm == None || hashAlgorithm == Some("") || IsVetted(hashAlgorithm.value)
    ensures r.Success? ==> IsVetted(r.value)
    ensures hashAlgorithm == None || hashAlgorithm == Some("") ==> r == Success("SHA512")
    ensures hashAlgorithm != None && hashAlgorithm != Some("") && r.Success? ==> r.value == hashAlgorithm.value
    ensures r.Failure? ==> r.error == UnsupportedHashAlgorithm(hashAlgorithm.value)
  {
    if hashAlgorithm == None || hashAlgorithm.value == "" then
      Success(SHA512HashAlgorithm)
    else if !EqualsIgnoreCase(hashAlgorithm.value, SHA512HashAlgorithm) &&
            !EqualsIgnoreCase(hashAlgorithm.value, SHA256HashAlgorithm) then
      Failure(UnsupportedHashAlgorithm(hashAlgorithm.value))
    else
      Success(hashAlgorithm.value)
  }

  /** Vetted names in any casing are taken and kept as written. */
  lemma SelectAlgorithmAccepts()
    ensures SelectAlgorithm(Some("sha256")) == Success("sha256")
    ensures SelectAlgorithm(Some("Sha512")) == Success("Sha512")
  {
    VettedNameSpelling("sha256");
    VettedNameSpelling("Sha512");
  }

  /** Names outside the vetted list are refused, SHA384 included. */
  lemma SelectAlgorithmRefuses()
    ensures SelectAlgorithm(Some("MD5")) == Failure(UnsupportedHashAlgorithm("MD5"))
    ensures SelectAlgorithm(Some("SHA384")) == Failure(UnsupportedHashAlgorithm("SHA384"))
  {
    VettedNameSpelling("MD5");
    VettedNameSpelling("SHA384");
  }

  /** `Enumerable.SequenceEqual`: the same length and the same elements in
      the same order, compared one by one. */
  function SequenceEqual<T(==)>(first: seq<T>, second: seq<T>): (r: bool)
    ensures r <==> first == second
  {
    if |first| != |second| then false
    else if first == [] then true
    else first[0] == second[0] && SequenceEqual(first[1..], second[1..])
  }

  /** A readable stream over fixed content; reading moves the position. */
  class Stream {
    const content: seq<Byte>
    var position: nat

    constructor(content: seq<Byte>, position: nat)
      ensures this.content == content && this.position == position
    {
      this.content := content;
      this.position := position;
    }

    /** What is left to read from the current position; nothing when the
        position is at or past the end. */
    function Remaining(): (rest: seq<Byte>)
      reads this
      ensures position <= |content| ==> rest == content[position..]
      ensures position > |content| ==> rest == []
    {
      if position <= |content| then content[position..] else []
    }

    /** Reads everything from the current position to the end. */
    method ReadToEnd() returns (rest: seq<Byte>)
      modifies this
      ensures rest == old(Remaining())
      ensures position == if old(position) <= |content| then |content| else old(position)
      ensures Remaining() == []
    {
      rest := Remaining();
      if position <= |content| {
        position := |content|;
      }
    }
  }

  class CryptoHashProvider {
    /** The algorithm name, fixed at construction. */
    const hashAlgorithm: string

    /** Only a vetted name is ever stored, so only a vetted name ever reaches
        the hash primitive. */
    ghost predicate Valid() {
      IsVetted(hashAlgorithm)
    }

    /** The parameterless constructor: the same as passing null, so SHA512. */
    constructor Default()
      ensures Success(hashAlgorithm) == SelectAlgorithm(None)
      ensures hashAlgorithm == "SHA512"
      ensures Valid()
    {
      hashAlgorithm := SHA512HashAlgorithm;
    }

    /** Keeps a name that has passed the allow-list. */
    constructor Vetted(name: string)
      requires IsVetted(name)
      ensures hashAlgorithm == name
      ensures Valid()
    {
      hashAlgorithm := name;
    }

    /** The constructor taking an algorithm name (null is `None`): a new
        provider holding the selected name, or the argument error. */
    static method Create(hashAlgorithm: Option<string>) returns (r: Result<CryptoHashProvider, ConstructionError>)
      ensures r.Success? <==> SelectAlgorithm(hashAlgorithm).Success?
      ensures r.Success? ==> fresh(r.value) && r.value.hashAlgorithm == SelectAlgorithm(hashAlgorithm).value
      ensures r.Success? ==> r.value.Valid()
      ensures r.Failure? ==> r.error == SelectAlgorithm(hashAlgorithm).error
    {
      var selected := SelectAlgorithm(hashAlgorithm);
      if selected.Failure? {
        return Failure(selected.error);
      }
      var provider := new CryptoHashProvider.Vetted(selected.value);
      r := Success(provider);
    }

    /** The digest of `data`: the primitive for the stored name, applied to
        exactly these bytes. */
    function CalculateHash(data: seq<Byte>, getHashAlgorithm: HashAlgorithmFactory): (hash: seq<Byte>)
      requires Valid()
    {
      getHashAlgorithm(hashAlgorithm)(data)
    }

    /** The digest of what is left in `stream`; the stream is read to its end. */
    method CalculateStreamHash(stream: Stream, getHashAlgorithm: HashAlgorithmFactory) returns (hash: seq<Byte>)
      requires Valid()
      modifies stream
      ensures hash == CalculateHash(old(stream.Remaining()), getHashAlgorithm)
      ensures stream.position == if old(stream.position) <= |stream.content| then |stream.content| else old(stream.position)
      ensures stream.Remaining() == []
    {
      var rest := stream.ReadToEnd();
      hash := getHashAlgorithm(hashAlgorithm)(rest);
    }

    /** True exactly when `hash` has the length and, position by position,
        the bytes of the digest recomputed from `data`. */
    function VerifyHash(data: seq<Byte>, hash: seq<Byte>, getHashAlgorithm: HashAlgorithmFactory): (ok: bool)
      requires Valid()
      ensures ok <==> |hash| == |CalculateHash(data, getHashAlgorithm)| &&
                      forall i :: 0 <= i < |hash| ==> hash[i] == CalculateHash(data, getHashAlgorithm)[i]
    {
      SequenceEqual(CalculateHash(data, getHashAlgorithm), hash)
    }
  }

  /** Round trip: a digest computed by a provider verifies against the same
      data, the empty data included; any other byte sequence does not. */
  lemma VerifyCalculatedHash(p: CryptoHashProvider, data: seq<Byte>, hash: seq<Byte>, getHashAlgorithm: HashAlgorithmFactory)
    requires p.Valid()
    ensures p.VerifyHash(data, p.CalculateHash(data, getHashAlgorithm), getHashAlgorithm)
    ensures p.VerifyHash(data, hash, getHashAlgorithm) <==> hash == p.CalculateHash(data, getHashAlgorithm)
  {
  }

  /** The digest depends only on the stored name and the data: two providers
      built from the same name agree on every input. */
  lemma CalculateHashDependsOnNameOnly(p: CryptoHashProvider, q: CryptoHashProvider, data: seq<Byte>,
                                        getHashAlgorithm: HashAlgorithmFactory)
    requires p.Valid() && p.hashAlgorithm == q.hashAlgorithm
    ensures p.CalculateHash(data, getHashAlgorithm) == q.CalculateHash(data, getHashAlgorithm)
    ensures p.VerifyHash(data, q.CalculateHash(data, getHashAlgorithm), getHashAlgorithm)
  {
  }

  /** Hashing a stream positioned at `position` gives the same digest as
      hashing the bytes from that position on as an array. */
  method StreamAndArrayAgree(p: CryptoHashProvider, content: seq<Byte>, position: nat,
                             getHashAlgorithm: HashAlgorithmFactory)
    returns (fromStream: seq<Byte>, fromArray: seq<Byte>)
    requires p.Valid() && position <= |content|
    ensures fromStream == fromArray
    ensures p.VerifyHash(content[position..], fromStream, getHashAlgorithm)
  {
    var stream := new Stream(content, position);
    fromStream := p.CalculateStreamHash(stream, getHashAlgorithm);
    fromArray := p.CalculateHash(content[position..], getHashAlgorithm);
  }
}
