/**
 The flex bubble builder (`generateFlex` in index.js): from a rule's type,
 title and image URLs to a nested LINE flex "bubble" card.
 */
module Flex {
  import opened Wrappers

  /** A flex image component (`type: 'image'`). */
  datatype Image = Image(url: string, size: string, aspectRatio: Option<string>,
                         aspectMode: string, margin: Option<string>)

  /** A component of a box: a text block or an image. */
  datatype Component =
    | TextBlock(text: string, weight: Option<string>, size: Option<string>,
                color: Option<string>, wrap: Option<bool>)
    | ImageBlock(image: Image)

  /** A vertical box (`type: 'box'`) holding components in order. */
  datatype Box = Box(layout: string, spacing: Option<string>, contents: seq<Component>)

  /**
   The value of the `hero` field, which the source computes as
   `images[0] && {...}`: undefined when there is no first URL (the key is
   dropped when the card is serialised), the empty string itself when the
   first URL is "", and an image otherwise.
   */
  datatype Hero = NoHero | EmptyHero | HeroImage(image: Image)

  /** A flex bubble (`type: 'bubble'`). */
  datatype Bubble = Bubble(header: Option<Box>, hero: Hero, body: Box)

  /** The title used when a rule has no text. */
  const NoTitle: string := "ไม่มีข้อความ"

  /** The fixed promotion banner that only `flex2` cards carry. */
  const PromoBanner: string := "🎉 โปรโมชั่นใหม่!"

  /** Every URL after the first (none when there are none). */
  function Rest(images: seq<string>): (r: seq<string>)
    ensures |r| == if |images| == 0 then 0 else |images| - 1
    ensures forall i :: 0 <= i < |r| ==> r[i] == images[i + 1]
  {
    if |images| == 0 then [] else images[1..]
  }

  /** The `hero` field: a full-width cover image of the first URL. */
  function HeroOf(images: seq<string>, aspectRatio: string): (h: Hero)
    ensures h.NoHero? <==> |images| == 0
    ensures h.EmptyHero? <==> |images| > 0 && images[0] == ""
    ensures h.HeroImage? ==> h.image.url == images[0]
  {
    if |images| == 0 then NoHero
    else if images[0] == "" then EmptyHero
    else HeroImage(Image(images[0], "full", Some(aspectRatio), "cover", None))
  }

  /** One cover image component per URL, in order, all with the same size and margin. */
  function Thumbnails(urls: seq<string>, size: string, margin: string): (cs: seq<Component>)
    ensures |cs| == |urls|
    ensures forall i :: 0 <= i < |urls| ==>
      cs[i] == ImageBlock(Image(urls[i], size, None, "cover", Some(margin)))
  {
    if urls == [] then []
    else [ImageBlock(Image(urls[0], size, None, "cover", Some(margin)))]
         + Thumbnails(urls[1..], size, margin)
  }

  /**
   `generateFlex(type, title, images)`: `flex1`, `flex2` and every other type
   share the layout (optional hero, then a body holding the title followed by
   the remaining images) and differ only in styling; only `flex2` has a header.
   */
  function GenerateFlex(kind: string, title: string, images: seq<string>): (b: Bubble)
    ensures b.header.Some? <==> kind == "flex2"
    ensures b.header.Some? ==>
      b.header.value == Box("vertical", None, [TextBlock(PromoBanner, Some("bold"), Some("lg"), Some("#00b14f"), None)])
    ensures b.hero.HeroImage? <==> |images| > 0 && images[0] != ""
    ensures b.hero.HeroImage? ==> b.hero.image.url == images[0]
    ensures b.hero.NoHero? <==> |images| == 0
    ensures b.hero.HeroImage? ==>
      b.hero.image == Image(images[0], "full", Some(if kind == "flex2" then "16:9" else "20:13"), "cover", None)
    ensures b.body.layout == "vertical"
    ensures b.body.spacing == if kind == "flex2" then Some("md") else None
    ensures |b.body.contents| == if |images| == 0 then 1 else |images|
    ensures b.body.contents[0].TextBlock?
    ensures b.body.contents[0].text == if title == "" then NoTitle else title
    ensures b.body.contents[0].wrap == Some(true)
    ensures kind == "flex1" ==>
      (b.body.contents[0].weight, b.body.contents[0].size, b.body.contents[0].color)
      == (Some("bold"), Some("lg"), Some("#ff5555"))
    ensures kind == "flex2" ==>
      (b.body.contents[0].weight, b.body.contents[0].size, b.body.contents[0].color)
      == (None, None, None)
    ensures kind != "flex1" && kind != "flex2" ==>
      (b.body.contents[0].weight, b.body.contents[0].size, b.body.contents[0].color)
      == (Some("bold"), Some("md"), None)
    ensures forall i :: 1 <= i < |images| ==>
      b.body.contents[i].ImageBlock? && b.body.contents[i].image.url == images[i]
    ensures forall i :: 1 <= i < |images| ==>
      b.body.contents[i].image == Image(images[i], if kind == "flex1" then "xs" else "sm", None, "cover",
                                        Some(if kind == "flex1" then "sm" else "md"))
  {
    var heading := if title == "" then NoTitle else title;
    if kind == "flex1" then
      Bubble(None, HeroOf(images, "20:13"),
             Box("vertical", None,
                 [TextBlock(heading, Some("bold"), Some("lg"), Some("#ff5555"), Some(true))]
                 + Thumbnails(Rest(images), "xs", "sm")))
    else if kind == "flex2" then
      Bubble(Some(Box("vertical", None,
                      [TextBlock(PromoBanner, Some("bold"), Some("lg"), Some("#00b14f"), None)])),
             HeroOf(images, "16:9"),
             Box("vertical", Some("md"),
                 [TextBlock(heading, None, None, None, Some(true))]
                 + Thumbnails(Rest(images), "sm", "md")))
    else
      Bubble(None, HeroOf(images, "20:13"),
             Box("vertical", None,
                 [TextBlock(heading, Some("bold"), Some("md"), None, Some(true))]
                 + Thumbnails(Rest(images), "sm", "md")))
  }

  /** The URLs of the image components of `cs`, in order. */
  function BodyImages(cs: seq<Component>): seq<string>
  {
    if cs == [] then []
    else (if cs[0].ImageBlock? then [cs[0].image.url] else []) + BodyImages(cs[1..])
  }

  /** The image URLs a reader of the card sees: the hero (the empty string
      when the hero is ""), then the body's images. */
  function ShownImages(b: Bubble): seq<string>
  {
    (match b.hero
     case NoHero => []
     case EmptyHero => [""]
     case HeroImage(im) => [im.url])
    + BodyImages(b.body.contents)
  }

  /** The title a reader of the card sees: the first text block of the body. */
  function ShownTitle(b: Bubble): Option<string>
  {
    if |b.body.contents| > 0 && b.body.contents[0].TextBlock?
    then Some(b.body.contents[0].text) else None
  }

  /** Reading back thumbnails yields the URLs they were built from. */
  lemma {:induction false} BodyImagesOfThumbnails(urls: seq<string>, size: string, margin: string)
    ensures BodyImages(Thumbnails(urls, size, margin)) == urls
  {
    if urls != [] {
      var cs := Thumbnails(urls, size, margin);
      assert cs[1..] == Thumbnails(urls[1..], size, margin);
      BodyImagesOfThumbnails(urls[1..], size, margin);
    }
  }

  /** A card laid out as `GenerateFlex` lays it out, whatever its styling,
      shows the images it was built from and its text block's title. */
  lemma ShownOfLayout(header: Option<Box>, ratio: string, layout: string, spacing: Option<string>,
                      heading: Component, images: seq<string>, size: string, margin: string)
    requires heading.TextBlock?
    ensures ShownImages(Bubble(header, HeroOf(images, ratio),
                               Box(layout, spacing, [heading] + Thumbnails(Rest(images), size, margin))))
         == images
    ensures ShownTitle(Bubble(header, HeroOf(images, ratio),
                              Box(layout, spacing, [heading] + Thumbnails(Rest(images), size, margin))))
         == Some(heading.text)
  {
    var cs := [heading] + Thumbnails(Rest(images), size, margin);
    assert cs[1..] == Thumbnails(Rest(images), size, margin);
    BodyImagesOfThumbnails(Rest(images), size, margin);
    if |images| > 0 {
      assert images == [images[0]] + Rest(images);
    }
  }

  /**
   Round trip: whatever the type, the card shows exactly the configured
   images in order and the title (or the default title), so no URL is lost,
   duplicated or reordered.
   */
  lemma GenerateFlexRoundTrip(kind: string, title: string, images: seq<string>)
    ensures ShownImages(GenerateFlex(kind, title, images)) == images
    ensures ShownTitle(GenerateFlex(kind, title, images)) == Some(if title == "" then NoTitle else title)
  {
    var heading := if title == "" then NoTitle else title;
    if kind == "flex1" {
      ShownOfLayout(None, "20:13", "vertical", None,
                    TextBlock(heading, Some("bold"), Some("lg"), Some("#ff5555"), Some(true)), images, "xs", "sm");
    } else if kind == "flex2" {
      ShownOfLayout(Some(Box("vertical", None,
                             [TextBlock(PromoBanner, Some("bold"), Some("lg"), Some("#00b14f"), None)])),
                    "16:9", "vertical", Some("md"),
                    TextBlock(heading, None, None, None, Some(true)), images, "sm", "md");
    } else {
      ShownOfLayout(None, "20:13", "vertical", None,
                    TextBlock(heading, Some("bold"), Some("md"), None, Some(true)), images, "sm", "md");
    }
  }
}
