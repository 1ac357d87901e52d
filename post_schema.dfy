/**
 * The post document schema: defaults, the `postType` enumeration, and the
 * `image`/`video` fields whose `required` rule depends on `postType`.
 */
module PostSchema {
  import opened Wrappers

  /** The fields a `Post` is created from; `None` stands for a field left undefined. */
  datatype PostInput = PostInput(
    caption: Option<string>,
    image: Option<string>,
    video: Option<string>,
    postType: Option<string>,
    author: Option<string>)

  /** A stored post. Likes and comments start empty. */
  datatype PostDoc = PostDoc(
    caption: string,
    image: Option<string>,
    video: Option<string>,
    postType: string,
    author: string,
    likes: seq<string>,
    comments: seq<string>)

  /** The document, or the set of paths that failed validation (a `ValidationError` lists them all). */
  datatype Validated = Accepted(doc: PostDoc) | Rejected(paths: set<string>)

  /** `postType` after its default is applied. */
  function EffectiveType(input: PostInput): string {
    input.postType.GetOr("post")
  }

  /** A required `String` rejects undefined and the empty string. */
  predicate Present(s: Option<string>) {
    Truthy(s)
  }

  function Failures(input: PostInput): set<string> {
    var t := EffectiveType(input);
    (if t == "post" && !Present(input.image) then {"image"} else {})
    + (if t == "reel" && !Present(input.video) then {"video"} else {})
    + (if t != "post" && t != "reel" then {"postType"} else {})
    + (if input.author.None? then {"author"} else {})
  }

  /** `new Post(input).validate()`. */
  function Validate(input: PostInput): (r: Validated)
    ensures r.Accepted? ==>
      && r.doc.postType in {"post", "reel"}
      && (r.doc.postType == "post" ==> Present(r.doc.image))
      && (r.doc.postType == "reel" ==> Present(r.doc.video))
      && r.doc.caption == input.caption.GetOr("")
      && Some(r.doc.author) == input.author
      && r.doc.likes == [] && r.doc.comments == []
    ensures r.Rejected? ==> r.paths != {}
  {
    var failures := Failures(input);
    if failures != {} then Rejected(failures)
    else Accepted(PostDoc(input.caption.GetOr(""), input.image, input.video, EffectiveType(input),
                          input.author.value, [], []))
  }

  /** `image` is demanded exactly for posts, `video` exactly for reels, and an omitted type means a post. */
  lemma RequiredMedia(input: PostInput)
    ensures "image" in Failures(input) <==> EffectiveType(input) == "post" && !Present(input.image)
    ensures "video" in Failures(input) <==> EffectiveType(input) == "reel" && !Present(input.video)
    ensures input.postType.None? ==> EffectiveType(input) == "post"
    ensures Validate(input).Accepted? <==>
      && EffectiveType(input) in {"post", "reel"}
      && (EffectiveType(input) == "post" ==> Present(input.image))
      && (EffectiveType(input) == "reel" ==> Present(input.video))
      && input.author.Some?
  {
  }

  /** A reel needs no image and a post needs no video. */
  lemma OtherMediaOptional(caption: Option<string>, author: string, media: string)
    requires media != ""
    ensures Validate(PostInput(caption, None, Some(media), Some("reel"), Some(author))).Accepted?
    ensures Validate(PostInput(caption, Some(media), None, None, Some(author))).Accepted?
  {
  }
}
