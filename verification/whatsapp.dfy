/** The WhatsApp diagnostics: how the sender and recipient numbers are turned into Twilio's
    `whatsapp:`-prefixed addresses, and the gates that decide whether a test message is
    sent. */
module WhatsApp {
  import opened Wrappers
  import opened Text

  const Prefix: string := "whatsapp:"

  /** The sender used when `TWILIO_PHONE_NUMBER` is unset. */
  const DefaultSender: string := "+33668695116"

  /** The recipient used when `RECIPIENT_PHONE_NUMBER` is unset. */
  const DefaultRecipient: string := "33668695116"

  /** The number with one leading `+` removed, if it has one. */
  function DropPlus(n: string): string {
    if StartsWith(n, "+") then n[1..] else n
  }

  /** The address formatting applied to both the sender and the recipient: an address that
      already has the `whatsapp:` prefix is kept as it is; otherwise the result is
      `whatsapp:+` followed by the number without its one leading `+`, if it has one. Any text
      is kept as given, so `++33` becomes `whatsapp:++33`. */
  function FormatNumber(n: string): (r: string)
    ensures StartsWith(r, Prefix)
    ensures StartsWith(n, Prefix) ==> r == n
    ensures !StartsWith(n, Prefix) ==>
      && StartsWith(r[|Prefix|..], "+")
      && DropPlus(r[|Prefix|..]) == DropPlus(n)
  {
    if StartsWith(n, Prefix) then n
    else Prefix + (if StartsWith(n, "+") then n else "+" + n)
  }

  /** The two unprefixed cases: `+` is added only when missing, never doubled. */
  lemma FormatUnprefixed(n: string)
    requires !StartsWith(n, Prefix)
    ensures !StartsWith(n, "+") ==> FormatNumber(n) == "whatsapp:+" + n
    ensures StartsWith(n, "+") ==> FormatNumber(n) == "whatsapp:" + n
    ensures FormatNumber(n) == "whatsapp:+" + DropPlus(n)
  {
    if StartsWith(n, "+") {
      assert n == "+" + n[1..];
    }
  }

  /** Formatting an already formatted address changes nothing. */
  lemma FormatIdempotent(n: string)
    ensures FormatNumber(FormatNumber(n)) == FormatNumber(n)
  {
  }

  /** The default sender and recipient both become `whatsapp:+33668695116`. */
  lemma DefaultNumbersFormatted()
    ensures FormatNumber(DefaultRecipient) == Prefix + DefaultSender
    ensures FormatNumber(DefaultSender) == Prefix + DefaultSender
  {
    assert DefaultRecipient[..|Prefix|][0] == '3' != Prefix[0];
    assert DefaultRecipient[..1][0] == '3';
    assert DefaultSender[..|Prefix|][0] == '+' != Prefix[0];
    assert DefaultSender[..1] == "+";
    assert "+" + DefaultRecipient == DefaultSender;
  }

  /** The environment variables the scripts read. */
  datatype Env = Env(
    accountSid: Option<string>,
    authToken: Option<string>,
    phoneNumber: Option<string>,
    recipient: Option<string>)

  /** How a diagnostic run ends before the network: it exits for missing configuration, the
      operator cancels, or it goes on to send from one address to another. */
  datatype Run = MissingConfiguration | Cancelled | Send(from: string, to: string)

  /** The sender address, from `TWILIO_PHONE_NUMBER` or its default. */
  function FromAddress(env: Env): string {
    FormatNumber(EnvOr(env.phoneNumber, DefaultSender))
  }

  /** The recipient address, from `RECIPIENT_PHONE_NUMBER` or its default. */
  function ToAddress(env: Env): string {
    FormatNumber(EnvOr(env.recipient, DefaultRecipient))
  }

  /** `test_whatsapp_simple.py`: exit unless account SID, auth token and sender number are all
      non-empty, then send without asking. The recipient is not checked. */
  function SimpleCheck(env: Env): (r: Run)
    ensures r != Cancelled
    ensures r.Send? <==>
      Truthy(env.accountSid) && Truthy(env.authToken) && EnvOr(env.phoneNumber, DefaultSender) != ""
    ensures r.Send? ==> StartsWith(r.from, Prefix) && StartsWith(r.to, Prefix)
    ensures r.Send? ==> r.from == FromAddress(env) && r.to == ToAddress(env)
  {
    if Truthy(env.accountSid) && Truthy(env.authToken) && EnvOr(env.phoneNumber, DefaultSender) != "" then
      Send(FromAddress(env), ToAddress(env))
    else MissingConfiguration
  }

  /** An unset sender number falls back to its default and so never fails the check: only an
      explicitly empty one does. */
  lemma UnsetSenderPassesCheck(env: Env)
    requires Truthy(env.accountSid) && Truthy(env.authToken) && env.phoneNumber.None?
    ensures SimpleCheck(env) == Send(Prefix + DefaultSender, ToAddress(env))
  {
    DefaultNumbersFormatted();
  }

  /** `confirm.lower() != 'y'` cancels. */
  predicate Confirmed(answer: string) {
    Lower(answer) == "y"
  }

  /** Only a lone `y` or `Y` confirms; anything else, including ` y` or `yes`, cancels. */
  lemma ConfirmedExactly(answer: string)
    ensures Confirmed(answer) <==> answer == "y" || answer == "Y"
  {
    if Confirmed(answer) {
      assert |answer| == 1;
      assert LowerChar(answer[0]) == 'y';
    }
    if answer == "Y" {
      assert Lower(answer) == [LowerChar('Y')];
    }
  }

  /** `test_whatsapp.py`: no configuration check; the operator's answer decides. */
  function InteractiveCheck(env: Env, answer: string): (r: Run)
    ensures r != MissingConfiguration
    ensures r.Send? <==> answer == "y" || answer == "Y"
    ensures r.Send? ==> r.from == FromAddress(env) && r.to == ToAddress(env)
  {
    ConfirmedExactly(answer);
    if Confirmed(answer) then Send(FromAddress(env), ToAddress(env)) else Cancelled
  }
}
