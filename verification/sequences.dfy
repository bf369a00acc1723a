module Sequences {
  lemma AppendHead<T>(a: seq<T>, b: seq<T>)
    requires a != []
    ensures a + b != [] && (a + b)[0] == a[0] && (a + b)[1..] == a[1..] + b
  {
  }

  lemma PrependTwo<T>(a: T, b: T, s: seq<T>)
    ensures [a] + ([b] + s) == [a, b] + s
  {
  }

  lemma HeadAndTail<T>(a: seq<T>, s: seq<T>)
    requires a != []
    ensures [a[0]] + (a[1..] + s) == a + s
  {
  }
}
