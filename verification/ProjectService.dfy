/** Replies of the project service's two name lookups, and how the handler reads them. */
module ProjectService {
  import opened PersonaModel

  /** A NATS request either fails or brings a body. */
  datatype Reply = NoReply | Body(text: string)

  /** The usable answer in a reply: its trimmed text, unless that is empty or the raw body is a JSON object. */
  function Usable(r: Reply, trim: string -> string): Option<string> {
    match r
    case NoReply => None
    case Body(text) =>
      if trim(text) == "" || (|text| > 0 && text[0] == '{') then None else Some(trim(text))
  }

  /** resolveProjectSlug: the slug, or the empty string when there is no connection or no usable answer. */
  function ResolveProjectSlug(connected: bool, r: Reply, trim: string -> string): string {
    if !connected then "" else
      match Usable(r, trim) case None => "" case Some(slug) => slug
  }

  /** The project service gave `answer`: some text that is not blank and does not begin like a JSON object. */
  ghost predicate Gives(r: Reply, trim: string -> string, answer: string) {
    r.Body? && answer == trim(r.text) && answer != "" && (r.text == "" || r.text[0] != '{')
  }

  /** A slug is what the project service gave over the connection, and the empty string exactly without that. */
  lemma SlugExact(connected: bool, r: Reply, trim: string -> string)
    ensures var slug := ResolveProjectSlug(connected, r, trim);
            && (slug != "" ==> connected && Gives(r, trim, slug))
            && forall answer :: connected && Gives(r, trim, answer) ==> slug == answer
  {}

  lemma UsableExact(r: Reply, trim: string -> string, answer: string)
    ensures Usable(r, trim) == Some(answer) <==> Gives(r, trim, answer)
  {}
}
