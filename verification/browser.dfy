/**
 * The vocabulary shared by the four scrapers: what the Selenium driver
 * answers when a scraper locates or reads an element, and Python's
 * `str.strip()`, which every scraper applies to element text before
 * storing it.
 */
module Browser {

  /** The exceptions a driver call can raise, as the scrapers tell them apart. */
  datatype Fault = Timeout | StaleElement | NoSuchElement | OtherError

  /** One driver call: the element data it produced, or the exception it raised. */
  datatype Lookup<T> = Found(value: T) | Raised(fault: Fault)

  datatype Option<T> = None | Some(value: T)

  /** The characters for which Python's `str.isspace()` holds. */
  const Whitespace: seq<char> := [
    '\t', '\n', '\U{b}', '\U{c}', '\r', '\U{1c}', '\U{1d}', '\U{1e}', '\U{1f}', ' ',
    '\U{85}', '\U{a0}', '\U{1680}',
    '\U{2000}', '\U{2001}', '\U{2002}', '\U{2003}', '\U{2004}', '\U{2005}',
    '\U{2006}', '\U{2007}', '\U{2008}', '\U{2009}', '\U{200a}',
    '\U{2028}', '\U{2029}', '\U{202f}', '\U{205f}', '\U{3000}'
  ]

  /** `c` occurs in `Whitespace` at or after position `i`. */
  predicate ListedFrom(c: char, i: nat)
    decreases |Whitespace| - i
  {
    i < |Whitespace| && (Whitespace[i] == c || ListedFrom(c, i + 1))
  }

  /** Python's `str.isspace()` for one character. */
  predicate IsSpace(c: char)
  {
    ListedFrom(c, 0)
  }

  /**
   * Python's `str.strip()`: `s` without its leading and trailing
   * whitespace, taken off one character at a time.
   */
  function Strip(s: string): string
    decreases |s|
  {
    if s != [] && IsSpace(s[0]) then Strip(s[1..])
    else if s != [] && IsSpace(s[|s| - 1]) then Strip(s[..|s| - 1])
    else s
  }

  /** Where in `s` the stripped text lies. */
  lemma {:induction false} StripSlice(s: string) returns (i: nat, j: nat)
    ensures i <= j <= |s| && Strip(s) == s[i..j]
    ensures forall k :: 0 <= k < i ==> IsSpace(s[k])
    ensures forall k :: j <= k < |s| ==> IsSpace(s[k])
    ensures i < j ==> !IsSpace(s[i]) && !IsSpace(s[j - 1])
    decreases |s|
  {
    if s != [] && IsSpace(s[0]) {
      var t := s[1..];
      var i', j' := StripSlice(t);
      i, j := i' + 1, j' + 1;
      assert t[i'..j'] == s[i..j];
      forall k | 0 < k < i
        ensures IsSpace(s[k])
      {
        assert s[k] == t[k - 1];
      }
      forall k | j <= k < |s|
        ensures IsSpace(s[k])
      {
        assert s[k] == t[k - 1];
      }
    } else if s != [] && IsSpace(s[|s| - 1]) {
      var t := s[..|s| - 1];
      i, j := StripSlice(t);
      assert t[i..j] == s[i..j];
    } else {
      i, j := 0, |s|;
    }
  }

  /**
   * What `Strip` removes is whitespace, from the two ends only: the result
   * is a slice of `s`, and it neither starts nor ends with whitespace.
   */
  lemma StripTrims(s: string)
    ensures exists i, j ::
              && 0 <= i <= j <= |s| && Strip(s) == s[i..j]
              && (forall k :: 0 <= k < i ==> IsSpace(s[k]))
              && (forall k :: j <= k < |s| ==> IsSpace(s[k]))
    ensures Strip(s) == [] || (!IsSpace(Strip(s)[0]) && !IsSpace(Strip(s)[|Strip(s)| - 1]))
  {
    var i, j := StripSlice(s);
    if i < j {
      assert Strip(s)[0] == s[i];
      assert Strip(s)[|Strip(s)| - 1] == s[j - 1];
    }
  }

  /** Stripping text that is already stripped changes nothing. */
  lemma StripIdempotent(s: string)
    ensures Strip(Strip(s)) == Strip(s)
  {
    StripTrims(s);
  }
}
