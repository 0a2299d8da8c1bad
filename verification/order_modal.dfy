/** The service-order form (components/ServiceOrderModal.tsx): its fields,
    how opening it fills them, the five-image cap on upload, removing an
    image by position, and what submitting hands to the page. Reading files
    into data URLs is asynchronous in the source; here an accepted upload
    appends the already-encoded images in one step. */
module OrderModal {
  import opened Types

  /** The most images one order may carry. */
  const MaxImages: nat := 5

  /** The form's state. */
  datatype OrderForm = OrderForm(
    clientName: string,
    device: string,
    issueDescription: string,
    status: Status,
    images: seq<string>)

  /** The form-initialisation effect: an edited order's fields, or an empty
      form with status pending and no images. */
  function InitForm(orderToEdit: Option<ServiceOrder>): (f: OrderForm)
    ensures orderToEdit.Some? ==>
              var o := orderToEdit.value;
              && f.clientName == o.clientName && f.device == o.device
              && f.issueDescription == o.issueDescription && f.status == o.status
              && f.images == (if o.images.Some? then o.images.value else [])
    ensures orderToEdit.None? ==>
              f.clientName == "" && f.device == "" && f.issueDescription == ""
              && f.status == Pending && f.images == []
  {
    match orderToEdit
    case Some(o) =>
      OrderForm(o.clientName, o.device, o.issueDescription, o.status,
                if o.images.Some? then o.images.value else [])
    case None => OrderForm("", "", "", Pending, [])
  }

  /** The images after an upload attempt, and whether the capacity alert
      was shown. */
  datatype Upload = Upload(images: seq<string>, alerted: bool)

  /** `handleImageUpload`: nothing happens without a file list; a selection
      that would take the order past `MaxImages` is refused with an alert;
      otherwise the new images follow the existing ones. */
  function UploadImages(images: seq<string>, files: Option<seq<string>>): (r: Upload)
    ensures r.alerted <==> files.Some? && |images| + |files.value| > MaxImages
    ensures r.images == (if files.Some? && !r.alerted then images + files.value else images)
    ensures |images| <= MaxImages ==> |r.images| <= MaxImages
  {
    match files
    case None => Upload(images, false)
    case Some(fs) =>
      if |images| + |fs| > MaxImages then Upload(images, true)
      else Upload(images + fs, false)
  }

  /** The images whose position (counted from `from`) is not `index`: the
      `filter((_, i) => i !== index)` of `handleRemoveImage`. */
  function KeepOtherPositions(images: seq<string>, index: int, from: int): (r: seq<string>)
    ensures from <= index < from + |images| ==>
              r == images[..index - from] + images[index - from + 1..]
    ensures !(from <= index < from + |images|) ==> r == images
    decreases |images|
  {
    if images == [] then []
    else
      var rest := KeepOtherPositions(images[1..], index, from + 1);
      if from == index then
        assert rest == images[1..];
        rest
      else
        assert from < index < from + |images| ==>
                 [images[0]] + images[1..][..index - from - 1] == images[..index - from];
        [images[0]] + rest
  }

  /** `handleRemoveImage`: position `index` goes and the others keep their
      order; an index outside the list changes nothing. */
  function RemoveImage(images: seq<string>, index: int): (r: seq<string>)
    ensures 0 <= index < |images| ==> r == images[..index] + images[index + 1..]
    ensures 0 <= index < |images| ==> |r| == |images| - 1
    ensures !(0 <= index < |images|) ==> r == images
  {
    KeepOtherPositions(images, index, 0)
  }

  /** Removing an image never breaks the cap. */
  lemma RemoveKeepsCap(images: seq<string>, index: int)
    requires |images| <= MaxImages
    ensures |RemoveImage(images, index)| <= MaxImages
  {
  }

  /** A user's edit of the image list while the form is open. */
  datatype ImageAction = UploadFiles(files: Option<seq<string>>) | RemoveAt(index: int)

  /** The image list after a series of uploads and removals. */
  function ApplyImageActions(images: seq<string>, actions: seq<ImageAction>): (r: seq<string>)
    ensures |images| <= MaxImages ==> |r| <= MaxImages
    decreases |actions|
  {
    if actions == [] then images
    else
      var next := match actions[0]
        case UploadFiles(files) => UploadImages(images, files).images
        case RemoveAt(index) => RemoveImage(images, index);
      ApplyImageActions(next, actions[1..])
  }

  /** What `handleSubmit` passes to the page: the current fields, and the
      edited order's id (absent when creating). */
  datatype Submission = Submission(data: OrderData, id: Option<string>)

  function Submit(form: OrderForm, orderToEdit: Option<ServiceOrder>): (s: Submission)
    ensures s.data.clientName == form.clientName && s.data.device == form.device
    ensures s.data.issueDescription == form.issueDescription && s.data.status == form.status
    ensures s.data.images == Some(form.images)
    ensures s.id.Some? <==> orderToEdit.Some?
    ensures orderToEdit.Some? ==> s.id.value == orderToEdit.value.id
  {
    Submission(
      OrderData(form.clientName, form.device, form.issueDescription, form.status, Some(form.images)),
      if orderToEdit.Some? then Some(orderToEdit.value.id) else None)
  }

  /** Opening an order for edit and submitting without changes hands back
      its own fields, with a missing image list made explicit and empty. */
  lemma SubmitUnchangedEdit(o: ServiceOrder)
    ensures var s := Submit(InitForm(Some(o)), Some(o));
            && s.id == Some(o.id)
            && s.data == OrderData(o.clientName, o.device, o.issueDescription, o.status,
                                   Some(if o.images.Some? then o.images.value else []))
  {
  }
}
