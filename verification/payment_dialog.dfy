/** The "Make Payment" dialog: its submit guard, the storage path of the
    uploaded proof, the pending payment row it inserts, and how its own state
    (open, amount, file, loading) evolves on each path of a submission. */
module PaymentDialog {
  import opened Types
  import opened Strings

  /** The chosen proof file; only its name matters here. */
  datatype ProofFile = ProofFile(name: string)

  /** The dialog's local state. `amount` is the text of the amount field. */
  datatype Dialog = Dialog(open: bool, amount: string, file: Option<ProofFile>, loading: bool)

  /** One call of a local state setter. */
  datatype DialogWrite = SetOpen(b: bool) | SetAmount(text: string) | SetFile(f: Option<ProofFile>) | SetLoading(b: bool)

  /** The `payments` row a submission inserts. The amount text and the
      timestamp are kept opaque (see the README). */
  datatype PaymentRow = PaymentRow(userId: string, amount: string, status: PaymentStatus, proofUrl: string, paymentDate: string)

  /** How an awaited storage upload or table insert settles: success, or an
      error (returned and rethrown, or thrown) carrying a message. */
  datatype CallResult = Succeeded | Failed(message: string)

  /** What a submission does, in order: local state writes, toasts, the
      storage upload, the `payments` insert and the success callback. */
  datatype DialogEffect =
    | Local(w: DialogWrite)
    | ToastError(text: string)
    | ToastSuccess(text: string)
    | Upload(bucket: string, path: string)
    | InsertPayment(row: PaymentRow)
    | NotifySuccess                      // the `onSuccess` callback

  const Bucket: string := "payment-proofs"
  const MissingFields: string := "Please fill in all fields"
  const DefaultFailure: string := "Failed to submit payment"
  const Submitted: string := "Payment submitted for review!"

  /** `!amount || !file || !profile` fails: the amount text is non-empty and a
      file and a profile are present. */
  function CanSubmit(d: Dialog, profile: Option<Profile>): (ok: bool)
    ensures !ok <==> (d.amount == [] || d.file == None || profile == None)
  {
    d.amount != "" && d.file.Some? && profile.Some?
  }

  /** `file.name.split('.').pop()`. */
  function Extension(fileName: string): (ext: string)
    ensures '.' !in ext
    ensures |ext| <= |fileName| && ext == fileName[|fileName| - |ext|..]
  {
    SplitLast(fileName, '.');
    Last(Split(fileName, '.'))
  }

  /** The extension is the text after the last `.` of the name, or the whole
      name when it has none. */
  lemma ExtensionIsLastSegment(fileName: string)
    ensures '.' !in Extension(fileName)
    ensures var ext := Extension(fileName);
            |ext| <= |fileName| && ext == fileName[|fileName| - |ext|..]
            && (|ext| < |fileName| ==> fileName[|fileName| - |ext| - 1] == '.')
    ensures '.' !in fileName ==> Extension(fileName) == fileName
  {
    SplitLast(fileName, '.');
    SplitSingle(fileName, '.');
  }

  /** `${profile.id}/${uuid}.${ext}`: the object path of the proof inside the bucket. */
  function StoragePath(userId: string, uuid: string, ext: string): (path: string)
    ensures StartsWith(path, userId + "/")
    ensures |path| == |userId| + |uuid| + |ext| + 2
    ensures path[|userId| + 1..|userId| + 1 + |uuid|] == uuid
    ensures path[|userId| + 1 + |uuid|] == '.'
    ensures path[|userId| + 2 + |uuid|..] == ext
  {
    userId + "/" + uuid + "." + ext
  }

  /** A fresh id gives a fresh object path: for one owner and extension, two
      paths are equal exactly when the ids are. */
  lemma StoragePathFreshId(userId: string, a: string, b: string, ext: string)
    ensures StoragePath(userId, a, ext) == StoragePath(userId, b, ext) <==> a == b
  {
  }

  /** Uploading under a fresh id keeps the file's type: the extension of the
      storage path is the extension the path was built from. */
  lemma StoragePathKeepsExtension(userId: string, uuid: string, fileName: string)
    ensures Extension(StoragePath(userId, uuid, Extension(fileName))) == Extension(fileName)
  {
    var ext := Extension(fileName);
    ExtensionIsLastSegment(fileName);
    var dir := userId + "/" + uuid;
    assert StoragePath(userId, uuid, ext) == dir + ['.'] + ext;
    SplitLastPiece(dir, ext, '.');
  }

  /** The proof lands in the owner's folder: when the profile id has no `/`,
      the first segment of the storage path is that id. */
  lemma StoragePathOwnerFolder(userId: string, uuid: string, ext: string)
    requires '/' !in userId
    ensures Split(StoragePath(userId, uuid, ext), '/')[0] == userId
  {
    var path := StoragePath(userId, uuid, ext);
    assert path == userId + ("/" + uuid + "." + ext);
    assert path[|userId|] == '/' && path[..|userId|] == userId;
    SplitFirstPiece(path, '/', |userId|);
  }

  /** The last piece of `s.split(sep)` is the text after the last `sep`. */
  lemma {:induction false} SplitLastPiece(x: string, y: string, sep: char)
    requires sep !in y
    ensures Last(Split(x + [sep] + y, sep)) == y
    decreases |x|
  {
    var s := x + [sep] + y;
    if x == [] {
      assert s == [sep] + y;
      assert s[1..] == y;
      SplitSingle(y, sep);
    } else {
      assert s[0] == x[0];
      assert s[1..] == x[1..] + [sep] + y;
      SplitLastPiece(x[1..], y, sep);
      assert s[1..][|x| - 1] == sep;
      SplitSingle(s[1..], sep);
    }
  }

  /** The first piece of `s.split(sep)` is the text before the first `sep`. */
  lemma {:induction false} SplitFirstPiece(s: string, sep: char, k: nat)
    requires k < |s| && s[k] == sep && sep !in s[..k]
    ensures Split(s, sep)[0] == s[..k]
    decreases k
  {
    if k > 0 {
      assert s[1..][k - 1] == sep;
      assert s[1..][..k - 1] == s[..k][1..];
      SplitFirstPiece(s[1..], sep, k - 1);
      assert s[..k] == [s[0]] + s[1..][..k - 1];
    }
  }

  /** The payment row of a submission: owned by the submitting profile,
      pending review, pointing at the public URL of the uploaded proof. */
  function PaymentFor(profile: Profile, amount: string, proofUrl: string, paidAt: string): (row: PaymentRow)
    ensures row.userId == profile.id && row.status == Pending && row.proofUrl == proofUrl
    ensures row.amount == amount && row.paymentDate == paidAt
  {
    PaymentRow(profile.id, amount, Pending, proofUrl, paidAt)
  }

  /** `error.message || 'Failed to submit payment'`. */
  function FailureText(message: string): (text: string)
    ensures text != ""
    ensures message != "" ==> text == message
  {
    if message != "" then message else DefaultFailure
  }

  /** `handleSubmit`: the effects of one submission. `uuid` stands for the
      fresh id, `paidAt` for the current timestamp, `publicUrl` for the storage
      client's URL of a path; `upload` and `insert` are how those calls settle. */
  function HandleSubmit(d: Dialog, profile: Option<Profile>, uuid: string, paidAt: string,
                        publicUrl: string -> string, upload: CallResult, insert: CallResult): (trace: seq<DialogEffect>)
    ensures !CanSubmit(d, profile) ==> trace == [ToastError(MissingFields)]
    ensures CanSubmit(d, profile) ==> (|trace| >= 3 && trace[0] == Local(SetLoading(true))
                                       && trace[|trace| - 1] == Local(SetLoading(false)))
  {
    if !CanSubmit(d, profile) then [ToastError(MissingFields)]
    else
      var path := StoragePath(profile.value.id, uuid, Extension(d.file.value.name));
      var row := PaymentFor(profile.value, d.amount, publicUrl(path), paidAt);
      [Local(SetLoading(true)), Upload(Bucket, path)]
      + (match upload
         case Failed(m) => [ToastError(FailureText(m))]
         case Succeeded =>
           [InsertPayment(row)]
           + (match insert
              case Failed(m) => [ToastError(FailureText(m))]
              case Succeeded =>
                [ToastSuccess(Submitted), Local(SetOpen(false)), Local(SetAmount("")), Local(SetFile(None)), NotifySuccess]))
      + [Local(SetLoading(false))]
  }

  function ApplyWrite(d: Dialog, w: DialogWrite): Dialog
  {
    match w
    case SetOpen(b) => d.(open := b)
    case SetAmount(text) => d.(amount := text)
    case SetFile(f) => d.(file := f)
    case SetLoading(b) => d.(loading := b)
  }

  /** The dialog state after the local writes of a trace, applied in order. */
  function Settle(d: Dialog, trace: seq<DialogEffect>): Dialog
    decreases |trace|
  {
    if trace == [] then d
    else Settle(if trace[0].Local? then ApplyWrite(d, trace[0].w) else d, trace[1..])
  }

  /** A rejected submission only shows the error: nothing is uploaded or
      inserted and the dialog state, loading flag included, is unchanged. */
  lemma RejectedSubmitChangesNothing(d: Dialog, profile: Option<Profile>, uuid: string, paidAt: string,
                                     publicUrl: string -> string, upload: CallResult, insert: CallResult)
    requires !CanSubmit(d, profile)
    ensures Settle(d, HandleSubmit(d, profile, uuid, paidAt, publicUrl, upload, insert)) == d
    ensures forall e :: e in HandleSubmit(d, profile, uuid, paidAt, publicUrl, upload, insert)
                        ==> !e.Upload? && !e.InsertPayment?
  {
  }

  /** The trace of an accepted submission, path by path. */
  lemma AcceptedTrace(d: Dialog, profile: Option<Profile>, uuid: string, paidAt: string,
                      publicUrl: string -> string, upload: CallResult, insert: CallResult)
    requires CanSubmit(d, profile)
    ensures var path := StoragePath(profile.value.id, uuid, Extension(d.file.value.name));
            var row := PaymentFor(profile.value, d.amount, publicUrl(path), paidAt);
            var start := [Local(SetLoading(true)), Upload(Bucket, path)];
            HandleSubmit(d, profile, uuid, paidAt, publicUrl, upload, insert)
            == if upload.Failed? then start + [ToastError(FailureText(upload.message)), Local(SetLoading(false))]
               else if insert.Failed? then
                 start + [InsertPayment(row), ToastError(FailureText(insert.message)), Local(SetLoading(false))]
               else
                 start + [InsertPayment(row), ToastSuccess(Submitted), Local(SetOpen(false)), Local(SetAmount("")),
                          Local(SetFile(None)), NotifySuccess, Local(SetLoading(false))]
  {
  }

  /** Folding local writes one effect at a time from the front. */
  lemma SettleCons(d: Dialog, e: DialogEffect, t: seq<DialogEffect>)
    ensures Settle(d, [e] + t) == Settle(if e.Local? then ApplyWrite(d, e.w) else d, t)
  {
  }

  /** Folding a trace in two pieces is folding it in one. */
  lemma {:induction false} SettleAppend(d: Dialog, a: seq<DialogEffect>, b: seq<DialogEffect>)
    ensures Settle(d, a + b) == Settle(Settle(d, a), b)
    decreases |a|
  {
    if a == [] {
      assert a + b == b;
    } else {
      assert a + b == [a[0]] + (a[1..] + b);
      SettleCons(d, a[0], a[1..] + b);
      SettleAppend(if a[0].Local? then ApplyWrite(d, a[0].w) else d, a[1..], b);
    }
  }

  /** Effects other than local writes leave the dialog state alone. */
  lemma {:induction false} SettleNoLocal(d: Dialog, t: seq<DialogEffect>)
    requires forall i :: 0 <= i < |t| ==> !t[i].Local?
    ensures Settle(d, t) == d
    decreases |t|
  {
    if t != [] {
      SettleNoLocal(d, t[1..]);
    }
  }

  /** An accepted submission uploads to the owner's folder under the fresh id
      with the file's extension, and inserts a payment row exactly when the
      upload succeeded; that row is the owner's, pending, with the public URL
      of the same path, the entered amount text and the submission time. */
  lemma AcceptedSubmitUploadsThenInserts(d: Dialog, profile: Option<Profile>, uuid: string, paidAt: string,
                                         publicUrl: string -> string, upload: CallResult, insert: CallResult)
    requires CanSubmit(d, profile)
    ensures HandleSubmit(d, profile, uuid, paidAt, publicUrl, upload, insert)[1]
            == Upload(Bucket, StoragePath(profile.value.id, uuid, Extension(d.file.value.name)))
    ensures (exists e :: e in HandleSubmit(d, profile, uuid, paidAt, publicUrl, upload, insert) && e.InsertPayment?)
            <==> upload == Succeeded
    ensures forall e :: (e in HandleSubmit(d, profile, uuid, paidAt, publicUrl, upload, insert) && e.InsertPayment?
                         ==> e.row.userId == profile.value.id && e.row.status == Pending
                             && e.row.proofUrl == publicUrl(StoragePath(profile.value.id, uuid, Extension(d.file.value.name)))
                             && e.row.amount == d.amount && e.row.paymentDate == paidAt)
  {
    AcceptedTrace(d, profile, uuid, paidAt, publicUrl, upload, insert);
    var t := HandleSubmit(d, profile, uuid, paidAt, publicUrl, upload, insert);
    var path := StoragePath(profile.value.id, uuid, Extension(d.file.value.name));
    var row := PaymentFor(profile.value, d.amount, publicUrl(path), paidAt);
    var start := [Local(SetLoading(true)), Upload(Bucket, path)];
    if upload.Failed? {
      assert t == start + [ToastError(FailureText(upload.message)), Local(SetLoading(false))];
      assert forall e :: e in t ==> !e.InsertPayment?;
    } else {
      var tail := if insert.Failed? then [ToastError(FailureText(insert.message)), Local(SetLoading(false))]
                  else [ToastSuccess(Submitted), Local(SetOpen(false)), Local(SetAmount("")),
                        Local(SetFile(None)), NotifySuccess, Local(SetLoading(false))];
      assert t == start + [InsertPayment(row)] + tail;
      assert forall e :: e in tail ==> !e.InsertPayment?;
      assert t[2] == InsertPayment(row);
    }
  }

  /** A failed submission: loading goes on, non-local effects happen, loading
      goes off; nothing else of the dialog changes. */
  lemma FailedSettle(d: Dialog, mid: seq<DialogEffect>)
    requires forall i :: 0 <= i < |mid| ==> !mid[i].Local?
    ensures Settle(d, [Local(SetLoading(true))] + mid + [Local(SetLoading(false))]) == d.(loading := false)
  {
    var on := Local(SetLoading(true));
    var off := Local(SetLoading(false));
    assert [on] + mid + [off] == [on] + (mid + [off]);
    SettleCons(d, on, mid + [off]);
    SettleAppend(d.(loading := true), mid, [off]);
    SettleNoLocal(d.(loading := true), mid);
    SettleCons(d.(loading := true), off, []);
  }

  /** A successful submission closes the dialog, clears the form and ends with
      loading off, whatever the dialog held. */
  lemma SucceededSettle(d: Dialog, path: string, row: PaymentRow)
    ensures Settle(d, [Local(SetLoading(true)), Upload(Bucket, path), InsertPayment(row), ToastSuccess(Submitted),
                       Local(SetOpen(false)), Local(SetAmount("")), Local(SetFile(None)), NotifySuccess,
                       Local(SetLoading(false))])
            == Dialog(false, "", None, false)
  {
    var t := [Local(SetLoading(true)), Upload(Bucket, path), InsertPayment(row), ToastSuccess(Submitted),
              Local(SetOpen(false)), Local(SetAmount("")), Local(SetFile(None)), NotifySuccess,
              Local(SetLoading(false))];
    var outside := [Upload(Bucket, path), InsertPayment(row), ToastSuccess(Submitted)];
    var writes := [Local(SetOpen(false)), Local(SetAmount("")), Local(SetFile(None))];
    var tail := [NotifySuccess, Local(SetLoading(false))];
    assert t == [t[0]] + (outside + (writes + tail));
    SettleCons(d, t[0], outside + (writes + tail));
    var d1 := d.(loading := true);
    SettleAppend(d1, outside, writes + tail);
    SettleNoLocal(d1, outside);
    SettleAppend(d1, writes, tail);
    assert writes == [writes[0]] + ([writes[1]] + [writes[2]]);
    SettleCons(d1, writes[0], [writes[1]] + [writes[2]]);
    SettleCons(d1.(open := false), writes[1], [writes[2]]);
    SettleCons(d1.(open := false, amount := ""), writes[2], []);
    var d2 := d1.(open := false, amount := "", file := None);
    SettleCons(d2, NotifySuccess, [Local(SetLoading(false))]);
    SettleCons(d2, Local(SetLoading(false)), []);
  }

  /** Whatever the upload and insert do, an accepted submission ends with the
      loading flag off. On success the dialog is closed, the amount and file
      are cleared and `onSuccess` is called; on failure `onSuccess` is not
      called and they keep their values. */
  lemma AcceptedSubmitSettles(d: Dialog, profile: Option<Profile>, uuid: string, paidAt: string,
                              publicUrl: string -> string, upload: CallResult, insert: CallResult)
    requires CanSubmit(d, profile)
    ensures !Settle(d, HandleSubmit(d, profile, uuid, paidAt, publicUrl, upload, insert)).loading
    ensures upload == Succeeded && insert == Succeeded
            ==> Settle(d, HandleSubmit(d, profile, uuid, paidAt, publicUrl, upload, insert))
                == Dialog(false, "", None, false)
    ensures (upload == Succeeded && insert == Succeeded)
            <==> NotifySuccess in HandleSubmit(d, profile, uuid, paidAt, publicUrl, upload, insert)
    ensures !(upload == Succeeded && insert == Succeeded)
            ==> Settle(d, HandleSubmit(d, profile, uuid, paidAt, publicUrl, upload, insert)) == d.(loading := false)
  {
    AcceptedTrace(d, profile, uuid, paidAt, publicUrl, upload, insert);
    var t := HandleSubmit(d, profile, uuid, paidAt, publicUrl, upload, insert);
    var path := StoragePath(profile.value.id, uuid, Extension(d.file.value.name));
    var row := PaymentFor(profile.value, d.amount, publicUrl(path), paidAt);
    var on := Local(SetLoading(true));
    var off := Local(SetLoading(false));
    if upload.Failed? {
      var mid := [Upload(Bucket, path), ToastError(FailureText(upload.message))];
      assert t == [on] + mid + [off];
      FailedSettle(d, mid);
      assert NotifySuccess !in t;
    } else if insert.Failed? {
      var mid := [Upload(Bucket, path), InsertPayment(row), ToastError(FailureText(insert.message))];
      assert t == [on] + mid + [off];
      FailedSettle(d, mid);
      assert NotifySuccess !in t;
    } else {
      SucceededSettle(d, path, row);
      assert t[7] == NotifySuccess;
    }
  }
}
