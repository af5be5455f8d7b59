/** Rendering the webhook Deployment manifest: the image placeholder is
    substituted first, then the log-level placeholder receives the decimal
    text of the verbosity. */
module Render {
  import opened Text

  const ImagePlaceholder := "${WEBHOOK_IMAGE}"
  const LogLevelPlaceholder := "${LOG_LEVEL}"

  /** The substituted manifest text, before it is decoded. No log-level
      placeholder survives, whatever the template and the image hold. */
  function RenderManifest(template: string, image: string, verbosity: int): (text: string)
    ensures !Contains(text, LogLevelPlaceholder)
  {
    var withImage := ReplaceAll(template, ImagePlaceholder, image);
    ReplaceAllIsJoinOfSplit(withImage, LogLevelPlaceholder, DecimalText(verbosity));
    DecimalTextAvoidsPlaceholders(verbosity);
    JoinAvoids(Split(withImage, LogLevelPlaceholder), DecimalText(verbosity), LogLevelPlaceholder);
    ReplaceAll(withImage, LogLevelPlaceholder, DecimalText(verbosity))
  }

  /** Neither placeholder overlaps itself: its `$` occurs only at the start. */
  lemma PlaceholdersDoNotOverlapThemselves()
    ensures NoSelfOverlap(ImagePlaceholder) && NoSelfOverlap(LogLevelPlaceholder)
  {
    forall p, k | p in {ImagePlaceholder, LogLevelPlaceholder} && 0 < k < |p|
      ensures p[k..] != p[..|p| - k]
    {
      assert p[k..][0] == p[k] != '$' == p[..|p| - k][0];
    }
  }

  /** Substituting a placeholder replaces every occurrence of it: whichever
      placeholder-free pieces glued by the placeholder make up the text, the
      result is those same pieces glued by the replacement. */
  lemma ReplacesEveryPlaceholder(s: string, placeholder: string, pieces: seq<string>, rep: string)
    requires placeholder == ImagePlaceholder || placeholder == LogLevelPlaceholder
    requires |pieces| > 0 && Join(pieces, placeholder) == s
    requires forall k :: 0 <= k < |pieces| ==> !Contains(pieces[k], placeholder)
    ensures ReplaceAll(s, placeholder, rep) == Join(pieces, rep)
  {
    PlaceholdersDoNotOverlapThemselves();
    SplitUnique(s, placeholder, pieces);
    ReplaceAllIsJoinOfSplit(s, placeholder, rep);
  }

  lemma PlaceholdersHaveNoDecimalChars()
    ensures forall i :: 0 <= i < |LogLevelPlaceholder| ==> !IsDecimalChar(LogLevelPlaceholder[i])
    ensures forall i :: 0 <= i < |ImagePlaceholder| ==> !IsDecimalChar(ImagePlaceholder[i])
  {
  }

  /** The text of a number shares no character with either placeholder. */
  lemma DecimalTextAvoidsPlaceholders(n: int)
    ensures Disjoint(DecimalText(n), LogLevelPlaceholder)
    ensures Disjoint(DecimalText(n), ImagePlaceholder)
  {
    PlaceholdersHaveNoDecimalChars();
    var d := DecimalText(n);
    forall i | 0 <= i < |d|
      ensures d[i] !in LogLevelPlaceholder && d[i] !in ImagePlaceholder
    {
      assert IsDecimalChar(d[i]);
    }
  }

  /** Every image placeholder of the template becomes the image, and then
      every log-level placeholder of that text becomes the verbosity: the
      template is cut at the image placeholders and glued with the image,
      and the result is cut at the log-level placeholders and glued with
      the verbosity's decimal text. */
  lemma RenderManifestReplacesEveryPlaceholder(template: string, image: string, verbosity: int)
    ensures RenderManifest(template, image, verbosity) ==
      Join(Split(Join(Split(template, ImagePlaceholder), image), LogLevelPlaceholder),
           DecimalText(verbosity))
  {
    ReplaceAllIsJoinOfSplit(template, ImagePlaceholder, image);
    ReplaceAllIsJoinOfSplit(ReplaceAll(template, ImagePlaceholder, image),
                            LogLevelPlaceholder, DecimalText(verbosity));
  }

  /** No image placeholder survives rendering either, provided the image is
      not empty and shares no character with the placeholder (an empty image
      could glue two halves of a placeholder together). */
  lemma NoImagePlaceholderLeft(template: string, image: string, verbosity: int)
    requires |image| > 0 && Disjoint(image, ImagePlaceholder)
    ensures !Contains(RenderManifest(template, image, verbosity), ImagePlaceholder)
  {
    var withImage := ReplaceAll(template, ImagePlaceholder, image);
    ReplaceAllIsJoinOfSplit(template, ImagePlaceholder, image);
    JoinAvoids(Split(template, ImagePlaceholder), image, ImagePlaceholder);
    ReplaceAllIsJoinOfSplit(withImage, LogLevelPlaceholder, DecimalText(verbosity));
    SplitPiecesAvoid(withImage, LogLevelPlaceholder, ImagePlaceholder);
    DecimalTextAvoidsPlaceholders(verbosity);
    JoinAvoids(Split(withImage, LogLevelPlaceholder), DecimalText(verbosity), ImagePlaceholder);
  }

  /** A template without placeholders is passed through untouched. */
  lemma TemplateWithoutPlaceholdersUnchanged(template: string, image: string, verbosity: int)
    requires !Contains(template, ImagePlaceholder) && !Contains(template, LogLevelPlaceholder)
    ensures RenderManifest(template, image, verbosity) == template
  {
    ReplaceAllWithoutOccurrence(template, ImagePlaceholder, image);
    ReplaceAllWithoutOccurrence(template, LogLevelPlaceholder, DecimalText(verbosity));
  }

  /** The image is substituted first, so every log-level placeholder that the
      image brings in becomes the verbosity too. */
  lemma ImageSubstitutedBeforeLogLevel(image: string, verbosity: int)
    ensures RenderManifest(ImagePlaceholder, image, verbosity) ==
      ReplaceAll(image, LogLevelPlaceholder, DecimalText(verbosity))
  {
    assert ImagePlaceholder[..|ImagePlaceholder|] == ImagePlaceholder;
    assert ReplaceAll([], ImagePlaceholder, image) == [];
    assert ReplaceAll(ImagePlaceholder, ImagePlaceholder, image) == image;
  }
}
