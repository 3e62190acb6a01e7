/** The parts of a chat embed (serenity's `CreateEmbed` builder) that the bot fills in. */
module Serenity {
  import opened Wrappers

  datatype EmbedField = EmbedField(name: string, value: string, inline: bool)

  datatype Embed = Embed(
    title: Option<string>,
    description: Option<string>,
    fields: seq<EmbedField>,
    footer: Option<string>)
  {
    function WithTitle(t: string): Embed {
      this.(title := Some(t))
    }

    function WithDescription(d: string): Embed {
      this.(description := Some(d))
    }

    /** Fields accumulate in the order they are added. */
    function WithField(name: string, value: string, inline: bool): Embed {
      this.(fields := fields + [EmbedField(name, value, inline)])
    }

    /** A later footer replaces an earlier one. */
    function WithFooter(f: string): Embed {
      this.(footer := Some(f))
    }
  }

  /** `CreateEmbed::default()`. */
  const EMPTY_EMBED: Embed := Embed(None, None, [], None)
}
