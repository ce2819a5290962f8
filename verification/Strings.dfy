/** Small facts about texts that several modules use. */
module Strings {

  predicate EndsInSlash(s: string) { s != [] && s[|s| - 1] == '/' }

  lemma Regroup3(a: string, b: string, c: string, d: string)
    ensures a + b + c + d == a + (b + c + d)
  {
  }

  lemma Shift<T>(a: seq<T>, b: seq<T>, c: seq<T>)
    ensures (a + b) + c == a + (b + c)
  {
  }
}
