/** The few Swift and Foundation values the EmojiArt core is written against:
    optionals, throwing results, bytes, URLs, decoded images, and the String
    queries hasPrefix, hasSuffix and firstIndex(of:). */
module Foundation {

  /** Swift's `Optional`. */
  datatype Option<+T> = None | Some(value: T) {
    function GetOr(default: T): T {
      match this
      case Some(v) => v
      case None => default
    }
  }

  /** The outcome of a Swift call that can `throw`. */
  datatype Result<+R, +E> = Success(value: R) | Failure(error: E)

  /** One element of Swift's `Data`. */
  type byte = b: int | 0 <= b < 256

  /** A `URL`, identified (as Swift's `==` on URLs does) by its absolute string. */
  datatype URL = URL(absoluteString: string)

  /** A `UIImage`. Image decoding is a foreign call; an image is only ever
      obtained from a decoder collaborator and compared for identity. */
  datatype UIImage = DecodedImage(source: seq<byte>)

  /** `String.hasPrefix` */
  predicate HasPrefix(s: string, prefix: string) {
    |prefix| <= |s| && s[..|prefix|] == prefix
  }

  /** `String.hasSuffix` */
  predicate HasSuffix(s: string, suffix: string) {
    |suffix| <= |s| && s[|s| - |suffix|..] == suffix
  }

  /** `Collection.firstIndex(of:)`: the position of the first occurrence of `c`. */
  function FirstIndexOf<T(==)>(s: seq<T>, c: T): (r: Option<nat>)
    ensures r.None? <==> c !in s
    ensures r.Some? ==> r.value < |s| && s[r.value] == c && c !in s[..r.value]
  {
    if |s| == 0 then None
    else if s[0] == c then Some(0)
    else
      match FirstIndexOf(s[1..], c)
      case None => None
      case Some(k) =>
        assert s[1..][..k] == s[1..k + 1];
        Some(k + 1)
  }

  lemma {:induction false} FirstIndexOfAppend<T>(a: seq<T>, b: seq<T>, c: T)
    requires c !in a
    requires c in b
    ensures FirstIndexOf(a + b, c) == Some(|a| + FirstIndexOf(b, c).value)
  {
    if a == [] {
      assert a + b == b;
    } else {
      assert (a + b)[1..] == a[1..] + b;
      FirstIndexOfAppend(a[1..], b, c);
      assert FirstIndexOf((a + b)[1..], c) == Some(|a| - 1 + FirstIndexOf(b, c).value);
      assert (a + b)[0] == a[0] != c;
    }
  }

  lemma {:induction false} FirstIndexOfPrefix<T>(a: seq<T>, b: seq<T>, c: T)
    requires c in a
    ensures FirstIndexOf(a + b, c) == FirstIndexOf(a, c)
  {
    if a[0] != c {
      assert (a + b)[1..] == a[1..] + b;
      FirstIndexOfPrefix(a[1..], b, c);
    }
  }

  lemma MulAtLeast(b: int, k: int)
    requires b > 0 && k >= 1
    ensures b * k >= b
  {
    var j := k - 1;
    assert b * k == b * j + b;
    assert b * j >= 0;
  }

  /** Euclidean division is unique: `x == b * q + r` with `0 <= r < b`
      determines quotient and remainder. */
  lemma DivModUnique(x: int, b: int, q: int, r: int)
    requires b > 0 && 0 <= r < b && x == b * q + r
    ensures x % b == r && x / b == q
  {
    var d, m := x / b, x % b;
    assert x == b * d + m;
    var k := q - d;
    assert b * k == m - r by {
      assert b * q - b * d == b * (q - d);
    }
    if k >= 1 {
      MulAtLeast(b, k);
    } else if k <= -1 {
      assert b * (-k) == -(b * k);
      MulAtLeast(b, -k);
    }
  }
}
