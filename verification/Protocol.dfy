/** What travels between the compositor module and its one resident controller. */
module Protocol {
  import Text

  datatype Option<+T> = None | Some(value: T)

  type Handle = string

  /** A pixel size. The zero size stands for a size nobody has reported. */
  datatype Size = Size(width: int, height: int)

  const UNKNOWN_SIZE := Size(0, 0)
  const INT32_MAX := 0x7fff_ffff

  /** What libweston reports about a window when an event about it is emitted. */
  datatype Info = Info(title: string, appId: string, x: int, y: int, size: Size, state: nat)

  datatype Toplevel = Toplevel(handle: Handle, info: Info, revision: nat)

  datatype ErrorCode = StaleRevision | WindowNotFound | NotAuthorized | CaptureUnavailable | InvalidArgument

  datatype Event =
    | SnapshotBegun(revision: nat)
    | ToplevelChanged(toplevel: Toplevel)
    | ToplevelRemoved(handle: Handle)
    | RequestDone(id: nat, revision: nat)
    | RequestFailed(id: nat, code: ErrorCode)
    | ResizeConfigured(id: nat, size: Size)
    | ResizeDone(id: nat, configured: Size, committed: Size, visible: Size, revision: nat)
    | CaptureAuthorized(id: nat)
  {
    /** The events that settle a request; a capture authorization comes before its own RequestDone. */
    predicate Terminal() {
      RequestDone? || RequestFailed? || ResizeDone?
    }

    predicate NamesRequest() {
      Terminal() || ResizeConfigured? || CaptureAuthorized?
    }
  }

  datatype Request =
    | Snapshot(id: nat)
    | Activate(id: nat, handle: Handle, revision: nat)
    | Move(id: nat, handle: Handle, revision: nat, x: int, y: int)
    | Resize(id: nat, handle: Handle, revision: nat, size: Size)
    | CloseWindow(id: nat, handle: Handle, revision: nat)
    | PointerMotion(id: nat, toX: real, toY: real)
    | PointerButton(id: nat, button: nat, state: nat)
    | PointerAxis(id: nat, axis: nat, value: real)
    | Key(id: nat, key: nat, state: nat)
    | AuthorizeCapture(id: nat)
  {
    /** The requests that carry the revision their caller saw. */
    predicate NamesWindow() {
      Activate? || Move? || Resize? || CloseWindow?
    }
  }

  /** "app-%u". */
  function HandleName(index: nat): Handle {
    "app-" + Text.Decimal(index)
  }

  lemma HandleNameInjective(i: nat, j: nat)
    requires HandleName(i) == HandleName(j)
    ensures i == j
  {
    assert HandleName(i)[4..] == Text.Decimal(i);
    assert HandleName(j)[4..] == Text.Decimal(j);
    Text.DecimalInjective(i, j);
  }

  /** The wire has no 64-bit integer: a revision travels as two words. */
  function RevisionWords(r: bv64): (bv32, bv32) {
    ((r >> 32) as bv32, (r & 0xffff_ffff) as bv32)
  }

  function RevisionFromWords(hi: bv32, lo: bv32): bv64 {
    ((hi as bv64) << 32) | (lo as bv64)
  }

  lemma RevisionRoundTrip(r: bv64, hi: bv32, lo: bv32)
    ensures RevisionFromWords(RevisionWords(r).0, RevisionWords(r).1) == r
    ensures RevisionWords(RevisionFromWords(hi, lo)) == (hi, lo)
  {
  }
}
