/** Small shared vocabulary: options, results and wallet addresses. */
module Common {

  datatype Option<+T> = None | Some(value: T)

  datatype Result<+T, +E> = Ok(value: T) | Err(error: E)

  /** A database row key. The rows' UUIDs are opaque, so any type with equality will do. */
  type RowId = int

  /** A wallet address as text; two spellings of one address may differ in letter case. */
  type Wallet = string

  function LowerChar(ch: char): char {
    if 'A' <= ch <= 'Z' then (ch as int + 32) as char else ch
  }

  /** Lower-cases the ASCII letters, which are the only letters of a hexadecimal address. */
  function Lower(w: Wallet): Wallet {
    seq(|w|, i requires 0 <= i < |w| => LowerChar(w[i]))
  }

  /** Two spellings are the same wallet exactly if they differ in the case of letters only. */
  lemma SameUpToCase(a: Wallet, b: Wallet)
    ensures SameWallet(a, b) <==> |a| == |b| && forall i | 0 <= i < |a| :: SameLetter(a[i], b[i])
  {
    if SameWallet(a, b) {
      forall i | 0 <= i < |a|
        ensures SameLetter(a[i], b[i])
      {
        assert Lower(a)[i] == Lower(b)[i];
      }
    }
  }

  predicate SameLetter(x: char, y: char) {
    || x == y
    || ('A' <= x <= 'Z' && y as int == x as int + 32)
    || ('A' <= y <= 'Z' && x as int == y as int + 32)
  }

  /** The case-insensitive comparison that every dual-control check uses. */
  predicate SameWallet(a: Wallet, b: Wallet) {
    Lower(a) == Lower(b)
  }

  /** All but the last element; folds over a log peel events from its end. */
  function Front<T>(s: seq<T>): seq<T>
    requires |s| > 0
  {
    s[..|s| - 1]
  }

  function Last<T>(s: seq<T>): T
    requires |s| > 0
  {
    s[|s| - 1]
  }
}
