/** The conversation pane of client/src/components/ChatWindow.jsx: the check on an
    image before upload, which messages render as images, grouping the messages by
    day, and when a message shows its sender's avatar. */
module ChatWindow {
  import opened Common
  import opened ClientTypes
  import opened ChatEngine
  import opened ChatLayout

  /** The two properties of a selected file that the check reads. */
  datatype ImageFile = ImageFile(mime: string, size: int)

  /** The outcome of validateImage: accepted, or the alert it raises. */
  datatype ImageCheck = ImageOk | WrongType | TooLarge

  const AllowedTypes: seq<string> := ["image/jpeg", "image/png", "image/gif"]

  /** Five mebibytes. */
  const MaxImageSize: int := 5 * 1024 * 1024

  /** validateImage: the type is checked before the size. */
  function ValidateImage(f: ImageFile): ImageCheck
  {
    if f.mime !in AllowedTypes then WrongType
    else if f.size > MaxImageSize then TooLarge
    else ImageOk
  }

  /** A file is accepted exactly when it is a JPEG, PNG or GIF of at most 5 MiB; a
      wrong type is reported whatever the size; a file of exactly 5 MiB passes and
      one byte more does not; a WebP image, which isImageUrl would show, is refused. */
  lemma ValidateImageSpec(f: ImageFile)
    ensures ValidateImage(f) == ImageOk <==>
      (f.mime == "image/jpeg" || f.mime == "image/png" || f.mime == "image/gif") && f.size <= 5242880
    ensures f.mime !in AllowedTypes ==> ValidateImage(f) == WrongType
    ensures ValidateImage(ImageFile("image/png", 5242880)) == ImageOk
    ensures ValidateImage(ImageFile("image/png", 5242881)) == TooLarge
    ensures ValidateImage(ImageFile("image/webp", 1)) == WrongType
  {
  }

  /** A message renders as an image when its flag is set or its content looks like
      an image URL. */
  predicate ShowAsImage(msg: ChatMessage)
  {
    msg.isImage || IsImageUrl(msg.content)
  }

  /** The pane and the chat page's preview agree: whatever renders as an image is
      previewed as "[IMAGE]". A message from the server carries no flag, so an
      uploaded image renders as one only through its URL. */
  lemma ShowAsImageAgreesWithPreview(msg: ChatMessage)
    ensures ShowAsImage(msg) ==> PreviewText(msg) == "[IMAGE]"
    ensures !ShowAsImage(msg) ==> PreviewText(msg) == msg.content
    ensures !msg.isImage ==> (ShowAsImage(msg) <==> IsImageUrl(msg.content))
  {
  }

  /** The test that selects the messages of one day. */
  function OnDay(day: ChatMessage -> string, k: string): ChatMessage -> bool
  {
    (m: ChatMessage) => day(m) == k
  }

  /** The buckets groupMessagesByDate builds, with `day` standing for the
      `yyyy-MM-dd` formatting of a message's creation time. */
  function Grouped(ms: seq<ChatMessage>, day: ChatMessage -> string): map<string, seq<ChatMessage>>
  {
    if ms == [] then map[]
    else
      var g := Grouped(ms[..|ms| - 1], day);
      var m := ms[|ms| - 1];
      g[day(m) := (if day(m) in g then g[day(m)] else []) + [m]]
  }

  /** The order in which the buckets were first created, which is the order
      `Object.entries` lists them in. */
  function DayOrder(ms: seq<ChatMessage>, day: ChatMessage -> string): seq<string>
  {
    if ms == [] then []
    else
      var o := DayOrder(ms[..|ms| - 1], day);
      if day(ms[|ms| - 1]) in o then o else o + [day(ms[|ms| - 1])]
  }

  /** There is a bucket for exactly the days that occur. */
  lemma {:induction false} GroupedKeys(ms: seq<ChatMessage>, day: ChatMessage -> string)
    ensures forall k :: k in Grouped(ms, day) <==> exists i :: 0 <= i < |ms| && day(ms[i]) == k
  {
    if ms != [] {
      var p := ms[..|ms| - 1];
      GroupedKeys(p, day);
      forall k | k in Grouped(ms, day)
        ensures exists i :: 0 <= i < |ms| && day(ms[i]) == k
      {
        if k in Grouped(p, day) {
          var i :| 0 <= i < |p| && day(p[i]) == k;
          assert ms[i] == p[i];
        } else {
          assert day(ms[|ms| - 1]) == k;
        }
      }
      forall k | exists i :: 0 <= i < |ms| && day(ms[i]) == k
        ensures k in Grouped(ms, day)
      {
        var i :| 0 <= i < |ms| && day(ms[i]) == k;
        if i < |p| {
          assert day(p[i]) == k;
        }
      }
    }
  }

  /** Each bucket holds exactly that day's messages, in their original order. */
  lemma {:induction false} GroupedBuckets(ms: seq<ChatMessage>, day: ChatMessage -> string)
    ensures forall k | k in Grouped(ms, day) :: Grouped(ms, day)[k] == Filter(ms, OnDay(day, k))
  {
    if ms != [] {
      var p := ms[..|ms| - 1];
      var m := ms[|ms| - 1];
      assert ms == p + [m];
      GroupedBuckets(p, day);
      GroupedKeys(p, day);
      var g := Grouped(p, day);
      forall k | k in Grouped(ms, day)
        ensures Grouped(ms, day)[k] == Filter(ms, OnDay(day, k))
      {
        FilterAppendOne(p, m, OnDay(day, k));
        if k !in g {
          NoneOnDay(p, day, k);
        }
      }
    }
  }

  lemma NoneOnDay(p: seq<ChatMessage>, day: ChatMessage -> string, k: string)
    requires forall i :: 0 <= i < |p| ==> day(p[i]) != k
    ensures Filter(p, OnDay(day, k)) == []
  {
  }

  /** The days are listed once each, in order of first appearance, and they are
      exactly the buckets. */
  lemma {:induction false} DayOrderSpec(ms: seq<ChatMessage>, day: ChatMessage -> string)
    ensures NoDuplicates(DayOrder(ms, day))
    ensures forall k :: k in DayOrder(ms, day) <==> k in Grouped(ms, day)
  {
    if ms != [] {
      DayOrderSpec(ms[..|ms| - 1], day);
    }
  }

  /** groupMessagesByDate: no buckets when the messages are not an array; otherwise
      the reduce, written as the loop it performs. */
  method GroupMessagesByDate(messages: JsArray<ChatMessage>, day: ChatMessage -> string)
    returns (days: seq<string>, groups: map<string, seq<ChatMessage>>)
    ensures messages.Absent? ==> days == [] && groups == map[]
    ensures messages.Arr? ==> days == DayOrder(messages.items, day) && groups == Grouped(messages.items, day)
  {
    days := [];
    groups := map[];
    if messages.Absent? {
      return;
    }
    var ms := messages.items;
    var i := 0;
    while i < |ms|
      invariant 0 <= i <= |ms|
      invariant days == DayOrder(ms[..i], day) && groups == Grouped(ms[..i], day)
    {
      assert ms[..i + 1][..i] == ms[..i];
      DayOrderSpec(ms[..i], day);
      var key := day(ms[i]);
      if key !in groups {
        groups := groups[key := []];
        days := days + [key];
      }
      groups := groups[key := groups[key] + [ms[i]]];
      i := i + 1;
    }
    assert ms[..|ms|] == ms;
  }

  /** `a !== b` on two senders: two populated objects are distinct objects, so only
      two equal strings compare equal. */
  predicate SenderChanged(a: JsUser, b: JsUser)
  {
    !(a.UserIdStr? && a == b)
  }

  /** The id a sender stands for (lines 129-130). */
  function SenderId(u: JsUser): string
  {
    match u
    case UserObj(id, _) => id
    case UserIdStr(s) => s
  }

  /** showAvatar for the message at `idx` of one day's bucket. */
  predicate ShowAvatar(group: seq<ChatMessage>, idx: nat)
    requires idx < |group|
  {
    idx == 0 || SenderChanged(group[idx - 1].sender, group[idx].sender)
  }

  /** With raw id senders, as the history request returns them, the avatar marks the
      first message of each run from one sender; once either sender is a populated
      object, as in a broadcast message, every message shows it. */
  lemma ShowAvatarSpec(group: seq<ChatMessage>, idx: nat)
    requires 0 < idx < |group|
    ensures group[idx - 1].sender.UserIdStr? && group[idx].sender.UserIdStr? ==>
      (ShowAvatar(group, idx) <==> SenderId(group[idx - 1].sender) != SenderId(group[idx].sender))
    ensures group[idx - 1].sender.UserObj? || group[idx].sender.UserObj? ==> ShowAvatar(group, idx)
    ensures SenderId(group[idx - 1].sender) != SenderId(group[idx].sender) ==> ShowAvatar(group, idx)
  {
  }
}
