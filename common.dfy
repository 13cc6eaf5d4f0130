/** Values shared by the digest engine, the path index and the reconciler. */
module Common {

  /** One byte of file content, as `open(path, "rb")` yields it. */
  newtype byte = b: int | 0 <= b < 256

  /** A path string as `os.walk` and `os.path.join` produce it. */
  type Path = string

  /** Python's optional value: a checksum, or `None` after a failure. */
  datatype Option<+T> = None | Some(value: T)

  /** The 32-character lower-case hexadecimal string `hexdigest()` returns.
      It is never empty, so the truthiness test `md5sum1 and md5sum2`
      holds exactly when both values are `Some`. */
  type Checksum = s: string | |s| == 32 && forall i | 0 <= i < |s| :: s[i] in "0123456789abcdef"
    witness "00000000000000000000000000000000"

  /** No element occurs twice. */
  predicate Distinct<T(==)>(s: seq<T>) {
    forall i, j | 0 <= i < j < |s| :: s[i] != s[j]
  }

  /** Appending an element not yet present keeps a sequence duplicate-free. */
  lemma DistinctAppend<T>(s: seq<T>, x: T)
    requires Distinct(s) && x !in s
    ensures Distinct(s + [x])
  {
  }

  function Min(a: int, b: int): int {
    if a <= b then a else b
  }

  /** A duplicate-free sequence has as many distinct elements as entries. */
  lemma {:induction false} DistinctCard<T>(s: seq<T>)
    requires Distinct(s)
    ensures |set x | x in s| == |s|
  {
    if s != [] {
      var rest := s[1..];
      assert Distinct(rest) by {
        forall i, j | 0 <= i < j < |rest| ensures rest[i] != rest[j] {
          assert rest[i] == s[i + 1] && rest[j] == s[j + 1];
        }
      }
      DistinctCard(rest);
      assert (set x | x in s) == (set x | x in rest) + {s[0]} by {
        forall x | x in s ensures x in rest || x == s[0] {
          var k :| 0 <= k < |s| && s[k] == x;
          if k > 0 { assert x == rest[k - 1]; }
        }
      }
      assert s[0] !in (set x | x in rest) by {
        forall k | 0 <= k < |rest| ensures rest[k] != s[0] {
          assert rest[k] == s[k + 1];
        }
      }
    }
  }
}
