/** The companion's text source (services/geminiService.ts). The network
    call itself is a parameter: a `Reply` is what the call produced, and the
    functions below give the text the service hands back for it. Whatever
    happens, that text is never empty. */
module Advisor {
  import opened Types

  /** Outcome of one call to the text-generation service: either it answered
      (with text that may be missing or empty) or it threw. */
  datatype Reply = Answered(text: Option<string>) | Failed

  const ENCOURAGEMENT_FALLBACK: string := "加油！你可以做到的！💪"
  const ENCOURAGEMENT_ON_ERROR: string := "准备好了吗？让我们一起打败作业怪兽吧！🚀"
  const BREAK_FALLBACK: string := "休息一下，喝口水，眺望远方！🌳"
  const BREAK_ON_ERROR: string := "休息是为了一会儿飞得更高！✨"

  /** `response.text || fallback`: a missing or empty text is replaced. */
  function TextOr(reply: Reply, fallback: string, onError: string): (r: string)
    requires fallback != [] && onError != []
    ensures r != []
    ensures reply.Answered? && reply.text.Some? && reply.text.value != [] ==> r == reply.text.value
    ensures reply.Answered? && (reply.text.None? || reply.text.value == []) ==> r == fallback
    ensures reply.Failed? ==> r == onError
  {
    match reply
    case Answered(Some(t)) => if t != [] then t else fallback
    case Answered(None) => fallback
    case Failed => onError
  }

  /** Text returned by `getEncouragement`. */
  function Encouragement(reply: Reply): (r: string)
    ensures r != []
  {
    TextOr(reply, ENCOURAGEMENT_FALLBACK, ENCOURAGEMENT_ON_ERROR)
  }

  /** Text returned by `getBreakContent`. */
  function BreakContent(reply: Reply): (r: string)
    ensures r != []
  {
    TextOr(reply, BREAK_FALLBACK, BREAK_ON_ERROR)
  }
}
