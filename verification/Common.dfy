/** What several components share: optional values, and writing into part of a buffer. */
module Common {
  datatype Option<+T> = None | Some(value: T)

  /** Copies b into buf at a position, leaving the rest of buf alone. */
  method Put<T>(buf: array<T>, at: nat, b: seq<T>)
    requires at + |b| <= buf.Length
    modifies buf
    ensures buf[at..at + |b|] == b
    ensures buf[..at] == old(buf[..at]) && buf[at + |b|..] == old(buf[at + |b|..])
  {
    forall i | 0 <= i < |b| {
      buf[at + i] := b[i];
    }
  }
}
