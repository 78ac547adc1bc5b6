/**
 * The personality catalogue: the closed set of seven keys, the system prompt
 * each selects, and the sampling temperature the chat route sends with it.
 */
module Personality {
  import opened Text

  datatype Personality = Polite | Friendly | Energetic | Mirror | Sarcastic | Professional | Default

  /** The personality a request gets when it names none. */
  const RequestDefault: Personality := Friendly

  /** The catalogue's keys, in declaration order: the list a rejected
      request is told about. */
  const Keys: seq<string> := ["polite", "friendly", "energetic", "mirror", "sarcastic", "professional", "default"]

  function Key(p: Personality): string {
    match p
    case Polite => "polite"
    case Friendly => "friendly"
    case Energetic => "energetic"
    case Mirror => "mirror"
    case Sarcastic => "sarcastic"
    case Professional => "professional"
    case Default => "default"
  }

  /** Looks a name up in the catalogue; any other name is unrecognised. */
  function Parse(name: string): (r: Option<Personality>)
    ensures r.Some? <==> name in Keys
  {
    if name == "polite" then Some(Polite)
    else if name == "friendly" then Some(Friendly)
    else if name == "energetic" then Some(Energetic)
    else if name == "mirror" then Some(Mirror)
    else if name == "sarcastic" then Some(Sarcastic)
    else if name == "professional" then Some(Professional)
    else if name == "default" then Some(Default)
    else None
  }

  /** Every personality is found under its own key, and only there. */
  lemma ParseKeyRoundTrip(p: Personality, name: string)
    ensures Parse(Key(p)) == Some(p)
    ensures Key(p) in Keys
    ensures Parse(name) == Some(p) ==> name == Key(p)
  {
  }

  /** The key list holds seven distinct names, one per personality. */
  lemma KeysAreTheCatalogue()
    ensures |Keys| == 7
    ensures forall i, j :: 0 <= i < j < |Keys| ==> Keys[i] != Keys[j]
    ensures forall i :: 0 <= i < |Keys| ==> Key(Parse(Keys[i]).value) == Keys[i]
  {
  }

  /** The instruction each personality selects. */
  function SystemPrompt(p: Personality): string {
    match p
    case Polite => "You are a polite, professional, and courteous assistant. Always be respectful, use formal language, and maintain a helpful demeanor. Address users with respect and provide well-structured responses."
    case Friendly => "You are a friendly, warm, and casual assistant. Be approachable, use casual language, and make the conversation feel natural and fun. Be like talking to a good friend!"
    case Energetic => "You are an energetic and enthusiastic assistant! Use exclamation marks, show excitement, and match the user's energy level! Be upbeat and positive in every response!"
    case Mirror => "You are an adaptive assistant who mirrors the user's communication style. Match their energy and tone (casual, formal, slang) but do NOT repeat personal attacks, insults, slurs, or hateful language. If the user uses abusive language, mirror the energy using punctuation, capitalization, and brevity, but replace direct insults with neutral tokens like 'there' or 'friend'. Always stay within safety guidelines."
    case Sarcastic => "You are a witty, sarcastic assistant with a dry sense of humor. Be clever and playful, but still helpful. Add a bit of sass to your responses while remaining informative."
    case Professional => "You are a highly professional business assistant. Provide clear, concise, and structured responses. Focus on efficiency and accuracy. Use business-appropriate language."
    case Default => "You are a helpful AI assistant. Provide clear and accurate responses to user questions."
  }

  /** Sampling temperature in tenths: 1.2 for energetic, 0.3 for
      professional, 1.0 for sarcastic and 0.9 for every other personality. */
  function TemperatureTenths(p: Personality): (t: int)
    ensures 3 <= t <= 12
    ensures t == 12 <==> p == Energetic
    ensures t == 3 <==> p == Professional
    ensures t == 10 <==> p == Sarcastic
    ensures t == 9 <==> p in {Polite, Friendly, Mirror, Default}
  {
    match p
    case Energetic => 12
    case Professional => 3
    case Sarcastic => 10
    case _ => 9
  }

  /** The separator between the system prompt and the user's message. */
  const Separator: string := "\n\nUser message: "

  /** The text sent to the model: the system prompt, a blank line, then the
      user's message. */
  function ComposePrompt(p: Personality, message: string): (prompt: string)
    ensures |prompt| == |SystemPrompt(p)| + 16 + |message|
    ensures prompt[..|SystemPrompt(p)|] == SystemPrompt(p)
    ensures prompt[|SystemPrompt(p)|..|SystemPrompt(p)| + 16] == "\n\nUser message: "
    ensures prompt[|prompt| - |message|..] == message
  {
    SystemPrompt(p) + Separator + message
  }

  /** The prompt determines the personality's system prompt and the user's
      message: the message is read back whole from the prompt's end. */
  lemma PromptIsReadBack(p: Personality, q: Personality, m: string, n: string)
    requires ComposePrompt(p, m) == ComposePrompt(q, n)
    ensures |SystemPrompt(p)| == |SystemPrompt(q)| ==> SystemPrompt(p) == SystemPrompt(q) && m == n
  {
    var x := ComposePrompt(p, m);
    if |SystemPrompt(p)| == |SystemPrompt(q)| {
      assert SystemPrompt(p) == x[..|SystemPrompt(p)|];
      assert |m| == |n|;
      assert m == x[|x| - |m|..];
    }
  }
}
