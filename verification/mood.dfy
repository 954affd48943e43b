/**
 * The mood of an entry is stored as a word and shown as an emoji. The new-entry
 * form encodes its three emoji options as `good`, `normal` and `bad`. The
 * calendar and the insights page both decode with the same `moodToEmoji`,
 * and they differ only in whether `undefined` may reach it. Here both null and
 * undefined are `None`.
 */
module Mood {

  import opened Wrappers

  const Smile: string := "\U{1F60A}"
  const Neutral: string := "\U{1F610}"
  const Tears: string := "\U{1F622}"

  /** The options of the mood select, in display order. */
  const Options: seq<string> := [Smile, Neutral, Tears]

  /** `moodToEmoji`: `good` smiles, `bad` cries, and anything else, missing included, is neutral. */
  function MoodToEmoji(mood: Option<string>): (e: string)
    ensures e in Options
    ensures e == Smile <==> mood == Some("good")
    ensures e == Tears <==> mood == Some("bad")
  {
    match mood
    case Some("good") => Smile
    case Some("bad") => Tears
    case _ => Neutral
  }

  /** The `moodValue` of `handleSubmit`: the smile is `good`, the neutral face `normal`, anything else `bad`. */
  function EncodeMood(emoji: string): (m: string)
    ensures m == "good" || m == "normal" || m == "bad"
    ensures m == "good" <==> emoji == Smile
    ensures m == "normal" <==> emoji == Neutral
  {
    if emoji == Smile then "good" else if emoji == Neutral then "normal" else "bad"
  }

  /** Every option the form offers is shown again as itself once stored. */
  lemma MoodRoundTrip(emoji: string)
    requires emoji in Options
    ensures MoodToEmoji(Some(EncodeMood(emoji))) == emoji
  {
  }

  /** Every stored word the form can produce is encoded again as itself once shown. */
  lemma StoredMoodRoundTrip(mood: string)
    requires mood == "good" || mood == "normal" || mood == "bad"
    ensures EncodeMood(MoodToEmoji(Some(mood))) == mood
  {
  }

  /** A missing mood is shown as the neutral face, which the form stores as `normal`, not as missing. */
  lemma MissingMoodBecomesNormal()
    ensures EncodeMood(MoodToEmoji(None)) == "normal"
  {
  }
}
