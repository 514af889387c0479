// The pieces of Go's strings package that address parsing relies on.

module Text {
  import opened Results

  const KELVIN: char := '\U{212A}'
  const DOTTED_I: char := '\U{0130}'
  const DOTLESS_I: char := '\U{0131}'
  const LONG_S: char := '\U{017F}'

  predicate Distinct(s: string)
  {
    forall i, j :: 0 <= i < j < |s| ==> s[i] != s[j]
  }

  /** strings.IndexRune: the first index of c in s. */
  function IndexRune(s: string, c: char): (r: Option<nat>)
    ensures r.Some? ==> r.value < |s| && s[r.value] == c
    ensures r.None? ==> c !in s
  {
    if |s| == 0 then None
    else if s[0] == c then Some(0)
    else match IndexRune(s[1..], c)
      case None => None
      case Some(i) => Some(i + 1)
  }

  lemma IndexOfDistinct(s: string, i: nat)
    requires i < |s| && Distinct(s)
    ensures IndexRune(s, s[i]) == Some(i)
  {
    var r := IndexRune(s, s[i]);
    assert s[i] in s;
    assert r.Some?;
  }

  /** Every character of s is in the alphabet. */
  predicate Over(alphabet: string, s: string)
  {
    forall i :: 0 <= i < |s| ==> IndexRune(alphabet, s[i]).Some?
  }

  function IndicesIn(alphabet: string, s: string): (r: seq<nat>)
    requires Over(alphabet, s)
    ensures |r| == |s|
    ensures forall i :: 0 <= i < |s| ==> r[i] < |alphabet| && alphabet[r[i]] == s[i]
    ensures forall i :: 0 <= i < |s| ==> IndexRune(alphabet, s[i]) == Some(r[i])
  {
    seq(|s|, i requires 0 <= i < |s| => IndexRune(alphabet, s[i]).value)
  }

  /** The first character of s outside the alphabet. */
  function FirstForeign(alphabet: string, s: string): (c: char)
    requires !Over(alphabet, s)
    ensures c in s && IndexRune(alphabet, c).None?
  {
    if IndexRune(alphabet, s[0]).None? then s[0] else FirstForeign(alphabet, s[1..])
  }

  lemma {:induction false} FirstForeignAt(alphabet: string, s: string, k: nat)
    requires k < |s| && IndexRune(alphabet, s[k]).None?
    requires forall i :: 0 <= i < k ==> IndexRune(alphabet, s[i]).Some?
    ensures !Over(alphabet, s) && FirstForeign(alphabet, s) == s[k]
  {
    if k > 0 {
      FirstForeignAt(alphabet, s[1..], k - 1);
    }
  }

  /** The lookup loop shared by the address decoders. */
  method Lookup(alphabet: string, s: string) returns (r: Result<seq<nat>, char>)
    ensures r == if Over(alphabet, s) then Ok(IndicesIn(alphabet, s)) else Err(FirstForeign(alphabet, s))
  {
    var data: seq<nat> := [];
    for k := 0 to |s|
      invariant |data| == k
      invariant forall i :: 0 <= i < k ==> IndexRune(alphabet, s[i]) == Some(data[i])
    {
      var idx := IndexRune(alphabet, s[k]);
      if idx.None? {
        FirstForeignAt(alphabet, s, k);
        return Err(s[k]);
      }
      data := data + [idx.value];
    }
    assert Over(alphabet, s) && data == IndicesIn(alphabet, s);
    return Ok(data);
  }

  // ----- letter case -----

  /**
   * unicode.ToLower. Two non-ASCII runes lower to ASCII letters: the Kelvin sign
   * and the dotted capital I. Runes whose case pair lies outside ASCII are left
   * alone: no address alphabet contains either member of such a pair.
   */
  function Lower(c: char): char
  {
    if 'A' <= c <= 'Z' then (c as int + 32) as char
    else if c == KELVIN then 'k'
    else if c == DOTTED_I then 'i'
    else c
  }

  /** unicode.ToUpper, with the two non-ASCII runes that upper to ASCII letters. */
  function Upper(c: char): char
  {
    if 'a' <= c <= 'z' then (c as int - 32) as char
    else if c == DOTLESS_I then 'I'
    else if c == LONG_S then 'S'
    else c
  }

  function ToLower(s: string): (t: string)
    ensures |t| == |s|
    ensures forall i :: 0 <= i < |s| ==> t[i] == Lower(s[i])
  {
    seq(|s|, i requires 0 <= i < |s| => Lower(s[i]))
  }

  function ToUpper(s: string): (t: string)
    ensures |t| == |s|
    ensures forall i :: 0 <= i < |s| ==> t[i] == Upper(s[i])
  {
    seq(|s|, i requires 0 <= i < |s| => Upper(s[i]))
  }

  /** strings.LastIndexByte; -1 when absent. */
  function LastIndex(s: string, c: char): (p: int)
    ensures -1 <= p < |s|
    ensures p >= 0 ==> s[p] == c
    ensures forall i :: p < i < |s| ==> s[i] != c
  {
    if |s| == 0 then -1
    else if s[|s| - 1] == c then |s| - 1
    else LastIndex(s[..|s| - 1], c)
  }
}
