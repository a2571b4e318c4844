/**
  The small part of Java's standard library that the plugin's renaming code
  relies on: `String.indexOf`, `String.lastIndexOf`, the two `substring`
  overloads, and the two unchecked exceptions they (and a `null` returned by
  `Map.get`) lead to. Java strings are modelled as `seq<char>`; a one-letter string
  argument such as `"_"` is modelled by the character it holds.
*/
module JavaString {

  /** The unchecked exceptions the renaming code can raise. */
  datatype Exception =
    | StringIndexOutOfBounds  // `substring` with an index outside the string
    | NullPointer             // `concat` called on the `null` of a missing map key

  /** The value a piece of Java code returns, or the exception it throws. */
  datatype Result<T> = Ok(value: T) | Throws(error: Exception) {

    predicate IsFailure() {
      Throws?
    }

    function PropagateFailure<U>(): Result<U>
      requires Throws?
    {
      Throws(error)
    }

    function Extract(): T
      requires Ok?
    {
      value
    }
  }

  /** `s.indexOf(c)`: the first position of `c` in `s`, or -1 if there is none. */
  function IndexOf(s: string, c: char): (r: int)
    ensures -1 <= r < |s|
    ensures r == -1 <==> c !in s
    ensures 0 <= r ==> s[r] == c && c !in s[..r]
  {
    if s == [] then -1
    else if s[0] == c then 0
    else
      var k := IndexOf(s[1..], c);
      assert k >= 0 ==> s[..k + 1] == [s[0]] + s[1..][..k];
      if k == -1 then -1 else k + 1
  }

  /** `s.lastIndexOf(c)`: the last position of `c` in `s`, or -1 if there is none. */
  function LastIndexOf(s: string, c: char): (r: int)
    ensures -1 <= r < |s|
    ensures r == -1 <==> c !in s
    ensures 0 <= r ==> s[r] == c && c !in s[r + 1..]
  {
    if s == [] then -1
    else if s[|s| - 1] == c then |s| - 1
    else
      var k := LastIndexOf(s[..|s| - 1], c);
      assert s == s[..|s| - 1] + [s[|s| - 1]];
      assert k >= 0 ==> s[k + 1..] == s[..|s| - 1][k + 1..] + [s[|s| - 1]];
      k
  }

  /** The last occurrence of a character is the one with none after it. */
  lemma LastIndexOfIsUnique(s: string, c: char, i: int)
    requires 0 <= i < |s| && s[i] == c && c !in s[i + 1..]
    ensures LastIndexOf(s, c) == i
  {
    assert c in s by { assert s[i] == c; }
    var r := LastIndexOf(s, c);
    forall j | r < j < |s| ensures s[j] != c {
      assert s[j] == s[r + 1..][j - r - 1];
    }
    forall j | i < j < |s| ensures s[j] != c {
      assert s[j] == s[i + 1..][j - i - 1];
    }
  }

  /** `s.substring(beginIndex)`. */
  function Substring(s: string, beginIndex: int): Result<string>
  {
    if 0 <= beginIndex <= |s| then Ok(s[beginIndex..]) else Throws(StringIndexOutOfBounds)
  }

  /** `s.substring(beginIndex, endIndex)`. */
  function SubstringRange(s: string, beginIndex: int, endIndex: int): Result<string>
  {
    if 0 <= beginIndex <= endIndex <= |s| then Ok(s[beginIndex..endIndex])
    else Throws(StringIndexOutOfBounds)
  }
}
