/** Vocabulary shared by the models of libusb's components. */
module Usb {

  type Byte = x: int | 0 <= x < 256

  datatype Option<+T> = None | Some(value: T)

  /** enum libusb_transfer_status: how a transfer ended. */
  datatype TransferStatus =
    | Completed
    | TransferError
    | TimedOut
    | TransferCancelled
    | Stall
    | NoDevice
    | Overflow

  /** enum libusb_error: what an API call returns. */
  datatype Code =
    | Success
    | ErrorIo
    | ErrorInvalidParam
    | ErrorNoDevice
    | ErrorNotFound
    | ErrorBusy
    | ErrorNotSupported
    | ErrorTimeout
    | ErrorOverflow
    | ErrorPipe
    | ErrorOther

  function Inserted<T>(s: seq<T>, k: nat, x: T): (r: seq<T>)
    requires k <= |s|
    ensures |r| == |s| + 1
  {
    s[..k] + [x] + s[k..]
  }

  lemma InsertedAt<T>(s: seq<T>, k: nat, x: T, i: nat)
    requires k <= |s| && i <= |s|
    ensures Inserted(s, k, x)[i] == if i < k then s[i] else if i == k then x else s[i - 1]
  {
  }

  function Without<T>(s: seq<T>, k: nat): (r: seq<T>)
    requires k < |s|
    ensures |r| == |s| - 1
  {
    s[..k] + s[k + 1..]
  }

  lemma MembersInserted<T>(s: seq<T>, k: nat, x: T)
    requires k <= |s|
    ensures forall y :: y in Inserted(s, k, x) <==> y in s || y == x
  {
    assert s == s[..k] + s[k..];
  }

  lemma WithoutInserted<T>(s: seq<T>, k: nat, x: T)
    requires k <= |s|
    ensures Inserted(s, k, x)[k] == x && Without(Inserted(s, k, x), k) == s
  {
  }

  lemma WithoutAt<T>(s: seq<T>, k: nat, i: nat)
    requires k < |s| && i < |s| - 1
    ensures Without(s, k)[i] == if i < k then s[i] else s[i + 1]
  {
  }

  /** Positions in what is left from `a` on are positions of the whole. */
  lemma SliceOfRest<T>(s: seq<T>, a: nat, n: nat)
    requires a + n <= |s|
    ensures s[a..][..n] == s[a..a + n] && s[a..][n..] == s[a + n..]
  {
  }

  lemma RestOfRest<T>(s: seq<T>, a: nat, b: nat)
    requires a + b <= |s|
    ensures s[a..][b..] == s[a + b..]
  {
  }

  lemma FrontAndRest<T>(front: seq<T>, rest: seq<T>, m: nat)
    requires m <= |rest|
    ensures (front + rest)[..|front|] == front && (front + rest)[|front|..] == rest
    ensures (front + rest)[|front| + m..] == rest[m..]
  {
  }

  /** Two pieces from the front of a sequence, the second from what the first leaves. */
  lemma TwoPieces<T>(s: seq<T>, n: nat, m: nat, one: seq<T>, two: seq<T>)
    requires n + m <= |s|
    requires s == one + s[n..] && s[n..] == two + s[n..][m..]
    ensures s == one + two + s[n + m..]
  {
    RestOfRest(s, n, m);
    var t, v := s[n..], s[n + m..];
    assert one + (two + v) == one + two + v;
  }

  lemma SliceOfTail<T>(s: seq<T>, a: nat, n: nat)
    requires 1 + a + n <= |s|
    ensures s[1..][a..a + n] == s[a + 1..a + 1 + n]
  {
  }

  lemma HeadAndTail<T>(s: seq<T>, n: nat)
    requires 1 <= n <= |s|
    ensures s[..n] == [s[0]] + s[1..][..n - 1]
  {
  }

  lemma ThreePieces<T>(x: T, a: seq<T>, b: seq<T>, c: seq<T>)
    ensures [x] + a + b + c == [x] + (a + b + c)
  {
  }

  lemma AppendOne<T>(a: seq<T>, x: T, rest: seq<T>)
    ensures a + ([x] + rest) == a + [x] + rest
  {
  }

  /** A position inside the middle part of a sequence. */
  lemma InTheMiddle<T>(front: seq<T>, own: seq<T>, back: seq<T>, j: nat)
    requires j < |own|
    ensures (front + own + back)[|front| + j] == own[j]
    ensures (front + own + back)[..|front| + j] == front + own[..j]
  {
  }

  /** The blocks of `parts`, one after the other. */
  function Flatten<T>(parts: seq<seq<T>>): seq<T> {
    if parts == [] then [] else parts[0] + Flatten(parts[1..])
  }

  lemma {:induction false} FlattenAppend<T>(parts: seq<seq<T>>, last: seq<T>)
    ensures Flatten(parts + [last]) == Flatten(parts) + last
  {
    if parts == [] {
      assert parts + [last] == [last];
      assert [last][1..] == [];
      assert Flatten([last]) == last + Flatten<T>([]);
    } else {
      FlattenAppend(parts[1..], last);
      assert (parts + [last])[1..] == parts[1..] + [last];
    }
  }
}
