/** What several of the models use. */
module Helpers {

  datatype Option<T> = None | Some(value: T)

  /** True of everything.  A predicate written `forall z :: Unfold(z) ==> ...` stays folded
      until a proof mentions Unfold. */
  ghost predicate Unfold(z: int) { true }

  function Decimal(n: nat): (s: string)
    ensures s != "" && forall i :: 0 <= i < |s| ==> '0' <= s[i] <= '9'
  {
    var d := [('0' as int + n % 10) as char];
    if n < 10 then d else Decimal(n / 10) + d
  }

  /** buf holds the text from i on. */
  ghost predicate HasText(buf: string, i: nat, text: string) {
    i + |text| <= |buf| && forall k :: 0 <= k < |text| ==> buf[i + k] == text[k]
  }

  lemma HasParts(buf: string, i: nat, a: string, b: string)
    requires HasText(buf, i, a + b)
    ensures HasText(buf, i, a) && HasText(buf, i + |a|, b)
  {
    var text := a + b;
    forall k | 0 <= k < |a| ensures buf[i + k] == a[k] { assert text[k] == a[k]; }
    forall k | 0 <= k < |b| ensures buf[i + |a| + k] == b[k] { assert text[|a| + k] == b[k]; }
  }

  lemma Regroup<T>(a: seq<T>, b: seq<T>, c: seq<T>)
    ensures a + (b + c) == a + b + c
  {
  }
}
