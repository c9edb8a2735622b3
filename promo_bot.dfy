/**
 * The `/promo <link>` bot (bot.py): its own copy of the affiliate-link
 * rewriter, the message with one buy button, and the command handler.
 */
module PromoBot {
  import opened PyStr
  import EnebaBot

  /** The destination channel. */
  const ChatId: int := -1001872183962
  /** The parameter block, written out in full (the affiliate id is not a named constant here). */
  const AffiliateParams: string :=
    "af_id=WiillzeraTV" + "&currency=BRL" + "&region=global" + "&utm_source=WiillzeraTV" + "&utm_medium=infl"

  /** `gerar_link_afiliado`: `&` before the block when the link already holds a `?`, `?` otherwise. */
  function AffiliateLink(link: string): (r: string)
    ensures link <= r
    ensures |r| == |link| + 1 + |AffiliateParams|
    ensures r[|link|] == (if '?' in link then '&' else '?')
    ensures r[|link| + 1..] == AffiliateParams
  {
    if '?' in link then link + "&" + AffiliateParams else link + "?" + AffiliateParams
  }

  /** The two bots spell the parameter block differently but it is the same text. */
  lemma ParamsAgree()
    ensures AffiliateParams == EnebaBot.Params
  {
    var id := EnebaBot.AffiliateId;
    assert "af_id=" + id == "af_id=WiillzeraTV";
    assert "&utm_source=" + id == "&utm_source=WiillzeraTV";
  }

  /** So both rewriters agree on every link. */
  lemma AffiliateLinkAgrees(link: string)
    ensures AffiliateLink(link) == EnebaBot.ToAffiliate(link)
  {
    ParamsAgree();
  }

  datatype Button = Button(caption: string, url: string)
  datatype Message = Message(text: string, keyboard: seq<seq<Button>>)

  const OfferText: string := "\U{1F525} *OFERTA ENEBA* \U{1F525}\n\nClique no botão abaixo para comprar:"
  const BuyCaption: string := "\U{1F6D2} COMPRE AQUI"

  /** `montar_mensagem`: a fixed text and a keyboard of one row holding one button. */
  function BuildMessage(link: string): (m: Message)
    ensures |m.keyboard| == 1 && |m.keyboard[0]| == 1
    ensures link <= m.keyboard[0][0].url && |m.keyboard[0][0].url| == |link| + 1 + |AffiliateParams|
    ensures m.keyboard[0][0].url == AffiliateLink(link)
    ensures m.keyboard[0][0].url[|link| + 1..] == AffiliateParams
    ensures m.text == OfferText
  {
    Message(OfferText, [[Button(BuyCaption, AffiliateLink(link))]])
  }

  /** The text does not depend on the link; only the button target does. */
  lemma MessageTextFixed(a: string, b: string)
    ensures BuildMessage(a).text == BuildMessage(b).text
    ensures BuildMessage(a).keyboard == BuildMessage(b).keyboard <==> a == b
  {
    if BuildMessage(a).keyboard == BuildMessage(b).keyboard {
      var ra, rb := AffiliateLink(a), AffiliateLink(b);
      assert |ra| == |rb|;
      assert a == ra[..|a|] == rb[..|b|] == b;
    }
  }

  datatype Answer = Usage | Success
  datatype Effect = AnswerUser(answer: Answer) | SendToChannel(chat: int, message: Message)

  /**
   * `cmd_promo` on the message text: split at the first space; without one, the
   * usage answer; otherwise the rest of the text, verbatim, is the link. The
   * success answer follows only a send that returned (`sendOk`).
   */
  function HandlePromo(text: string, sendOk: bool): (effects: seq<Effect>)
    ensures ' ' !in text <==> effects == [AnswerUser(Usage)]
    ensures 1 <= |effects| <= 2
    ensures ' ' in text ==> effects[0] == SendToChannel(ChatId, BuildMessage(text[IndexOf(text, ' ') + 1..]))
    ensures AnswerUser(Success) in effects <==> ' ' in text && sendOk
    ensures AnswerUser(Success) in effects ==> effects == [effects[0], AnswerUser(Success)] && effects[0].SendToChannel?
    ensures ' ' in text ==> effects == [SendToChannel(ChatId, BuildMessage(text[IndexOf(text, ' ') + 1..]))]
                                     + (if sendOk then [AnswerUser(Success)] else [])
  {
    var args := Split(text, ' ', 1);
    if |args| == 1 then [AnswerUser(Usage)]
    else
      assert args == [text[..IndexOf(text, ' ')], text[IndexOf(text, ' ') + 1..]];
      var sent := [SendToChannel(ChatId, BuildMessage(args[1]))];
      if sendOk then sent + [AnswerUser(Success)] else sent
  }

  /** Further spaces belong to the link: `/promo a b` sends the link `a b`. */
  lemma LinkKeepsSpaces(command: string, link: string, sendOk: bool)
    requires ' ' !in command
    ensures HandlePromo(command + " " + link, sendOk)[0] == SendToChannel(ChatId, BuildMessage(link))
  {
    var text := command + " " + link;
    assert text[|command|] == ' ' && text[..|command|] == command;
    IndexOfFirst(text, ' ', |command|);
    assert text[|command| + 1..] == link;
  }

  /** A bare `/promo ` still sends a post whose button carries only the parameter block. */
  lemma EmptyLinkStillSent(text: string, sendOk: bool)
    requires text == "/promo "
    ensures HandlePromo(text, sendOk)[0] == SendToChannel(ChatId, BuildMessage([]))
    ensures BuildMessage([]).keyboard[0][0].url == "?" + AffiliateParams
  {
    assert text == "/promo" + " " + [];
    LinkKeepsSpaces("/promo", [], sendOk);
    EmptyLinkUrl();
  }

  /** The affiliate link of an empty link is the parameter block alone. */
  lemma EmptyLinkUrl()
    ensures BuildMessage([]).keyboard[0][0].url == "?" + AffiliateParams
  {
    var empty: string := [];
    assert empty + "?" + AffiliateParams == "?" + AffiliateParams;
  }
}
