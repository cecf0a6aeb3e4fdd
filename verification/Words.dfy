/** Spellings as the dictionary compares and hashes them: Hashit of os.cpp, the case-blind
  * comparison strnicmp, and the choice of a hash bucket. Spellings hold no NUL. */
module Words {

  type Joined = s: string | s != "" witness "_"

  /** The outside of the hash: the CRC step over one character, the number of buckets, and BurstWord
    * with JoinWords: in how many words a spelling falls and the first, and all of them joined by
    * underscores. */
  datatype Hashing = Hashing(step: (nat, char) -> nat, buckets: nat, burst: string -> (nat, string), join: string -> Joined)

  function LowerChar(c: char): char {
    if 'A' <= c <= 'Z' then (c as int + 32) as char else c
  }

  predicate IsUpper(c: char) { 'A' <= c <= 'Z' }

  predicate HasUpper(word: string) { exists i :: 0 <= i < |word| && IsUpper(word[i]) }

  /** Hashit reads upper case as lower case, and a blank as an underscore. */
  function HashChar(c: char): char { if LowerChar(c) == ' ' then '_' else LowerChar(c) }

  function HashFrom(h: Hashing, crc: nat, word: string): nat
    decreases |word|
  {
    if word == [] then crc else HashFrom(h, h.step(crc, HashChar(word[0])), word[1..])
  }

  function Hashit(h: Hashing, word: string): nat { HashFrom(h, 0, word) }

  /** The hash takes a spelling character by character, each in lower case and a blank as an underscore. */
  lemma {:induction false} HashSteps(h: Hashing, crc: nat, word: string, c: char)
    ensures HashFrom(h, crc, word + [c]) ==
            h.step(HashFrom(h, crc, word), if c == ' ' then '_' else if 'A' <= c <= 'Z' then (c as int - 'A' as int + 'a' as int) as char else c)
    decreases |word|
  {
    if word == [] {
      assert [] + [c] == [c] && [c][1..] == [];
    } else {
      assert (word + [c])[0] == word[0] && (word + [c])[1..] == word[1..] + [c];
      HashSteps(h, h.step(crc, HashChar(word[0])), word[1..], c);
    }
  }

  /** Equal for strnicmp over the whole of both. */
  predicate SameLetters(a: string, b: string) {
    |a| == |b| && forall i :: 0 <= i < |a| ==> LowerChar(a[i]) == LowerChar(b[i])
  }

  /** Names of system and user variables, concepts and functions are filed in lower case. */
  predicate AlwaysLower(word: string) {
    word != [] && (word[0] == '%' || word[0] == '$' || word[0] == '~' || word[0] == '^')
  }

  predicate FiledUpper(word: string) { HasUpper(word) && !AlwaysLower(word) }

  /** The bucket of a spelling: that of its hash, or the next one if it is filed in upper case. */
  function Bucket(h: Hashing, word: string): (b: nat)
    requires h.buckets > 0
    ensures 1 <= b <= h.buckets + 1
  {
    Hashit(h, word) % h.buckets + 1 + if FiledUpper(word) then 1 else 0
  }

  /** Spellings that differ in case only have one hash. */
  lemma {:induction false} CaseFolds(h: Hashing, crc: nat, a: string, b: string)
    requires SameLetters(a, b)
    ensures HashFrom(h, crc, a) == HashFrom(h, crc, b)
    decreases |a|
  {
    if a != [] {
      assert LowerChar(a[0]) == LowerChar(b[0]);
      CaseFolds(h, h.step(crc, HashChar(a[0])), a[1..], b[1..]);
    }
  }

  lemma SameLettersFile(h: Hashing, a: string, b: string)
    requires SameLetters(a, b)
    ensures Hashit(h, a) == Hashit(h, b)
    ensures AlwaysLower(a) <==> AlwaysLower(b)
  {
    CaseFolds(h, 0, a, b);
    if a != [] { assert LowerChar(a[0]) == LowerChar(b[0]); }
  }

  /** Without upper case, equal letters are equal spellings. */
  lemma LowerIsExact(a: string, b: string)
    requires SameLetters(a, b) && !HasUpper(a) && !HasUpper(b)
    ensures a == b
  {
    forall i | 0 <= i < |a|
      ensures a[i] == b[i]
    {
      assert !IsUpper(a[i]) && !IsUpper(b[i]);
    }
  }
}
