/** Choosing the email provider at startup from the environment. The environment
    is a map from variable names to values; a name that is missing or set to the
    empty string counts as unset, as `||` defaults treat both alike. */
module EmailFactory {
  import opened JsString

  datatype SmtpConfig = SmtpConfig(host: string, port: Option<int>, secure: bool, user: string, pass: string)

  datatype Service = ResendService(apiKey: string) | SmtpService(config: SmtpConfig)

  /** The service chosen, or the message of the error thrown at startup. */
  datatype Startup = Started(service: Service) | StartupError(message: string)

  const SMTP_ERROR := "Missing SMTP configuration. Please set SMTP_HOST, SMTP_USER, and SMTP_PASSWORD"
  const RESEND_ERROR := "Missing RESEND_API_KEY. Please set it in your environment variables."

  function Provider(env: map<string, string>): string
  {
    OrElse(Lookup(env, "EMAIL_PROVIDER"), "resend")
  }

  function SmtpConfigOf(env: map<string, string>): (c: SmtpConfig)
    ensures c.host == OrElse(Lookup(env, "SMTP_HOST"), "")
    ensures c.user == OrElse(Lookup(env, "SMTP_USER"), "")
    ensures c.pass == OrElse(Lookup(env, "SMTP_PASSWORD"), "")
    ensures c.secure <==> Lookup(env, "SMTP_SECURE") == Some("true")
    ensures !Truthy(Lookup(env, "SMTP_PORT")) ==> c.port == Some(587)
    ensures Truthy(Lookup(env, "SMTP_PORT")) ==> c.port == ParseInt(env["SMTP_PORT"])
  {
    PortDefault();
    SmtpConfig(
      OrElse(Lookup(env, "SMTP_HOST"), ""),
      ParseInt(OrElse(Lookup(env, "SMTP_PORT"), "587")),
      Lookup(env, "SMTP_SECURE") == Some("true"),
      OrElse(Lookup(env, "SMTP_USER"), ""),
      OrElse(Lookup(env, "SMTP_PASSWORD"), ""))
  }

  /** `EmailServiceFactory.create`: SMTP exactly when asked for and fully configured,
      Resend exactly when SMTP is not asked for and a key is set, and otherwise the
      error naming the missing settings of the chosen provider. */
  function CreateService(env: map<string, string>): (r: Startup)
    ensures (r.Started? && r.service.SmtpService?) <==>
      (Provider(env) == "smtp" && Truthy(Lookup(env, "SMTP_HOST")) && Truthy(Lookup(env, "SMTP_USER"))
       && Truthy(Lookup(env, "SMTP_PASSWORD")))
    ensures r.Started? && r.service.SmtpService? ==> r.service.config == SmtpConfigOf(env)
    ensures (r.Started? && r.service.ResendService?) <==>
      (Provider(env) != "smtp" && Truthy(Lookup(env, "RESEND_API_KEY")))
    ensures r.Started? && r.service.ResendService? ==>
      r.service.apiKey == env["RESEND_API_KEY"] && r.service.apiKey != ""
    ensures r.StartupError? ==> r.message == (if Provider(env) == "smtp" then SMTP_ERROR else RESEND_ERROR)
  {
    if Provider(env) == "smtp" then
      var c := SmtpConfigOf(env);
      if c.host == "" || c.user == "" || c.pass == "" then StartupError(SMTP_ERROR)
      else Started(SmtpService(c))
    else
      var apiKey := Lookup(env, "RESEND_API_KEY");
      if !Truthy(apiKey) then StartupError(RESEND_ERROR) else Started(ResendService(apiKey.value))
  }

  lemma {:induction false} PortDefault()
    ensures ParseInt("587") == Some(587)
  {
    var s := "587";
    assert !IsJsSpace(s[0]);
    assert TrimStart(s) == s;
    assert DigitValue(s[0], 10) == Some(5) && DigitValue(s[1], 10) == Some(8) && DigitValue(s[2], 10) == Some(7);
    assert DigitRun(s, 10) == 3;
    assert s[..3] == s;
    assert s[..2] == "58" && s[..2][..1] == "5" && s[..2][..1][..0] == "";
    assert DigitsValue("5", 10) == 5;
    assert DigitsValue("58", 10) == 58;
    assert DigitsValue(s, 10) == 587;
  }

  /** Leaving the provider unset is the same as asking for Resend. */
  lemma ProviderDefaultsToResend(env: map<string, string>)
    requires !Truthy(Lookup(env, "EMAIL_PROVIDER"))
    ensures CreateService(env) == CreateService(env["EMAIL_PROVIDER" := "resend"])
  {
  }

  /** Every provider name other than `smtp`, including misspellings, selects Resend. */
  lemma OtherProvidersAreResend(env: map<string, string>, name: string)
    requires name != "smtp"
    ensures CreateService(env["EMAIL_PROVIDER" := name]) == CreateService(env["EMAIL_PROVIDER" := "resend"])
  {
  }

  /** Resend never reads the SMTP settings, and SMTP never reads the API key. */
  lemma ResendIgnoresSmtpSettings(env: map<string, string>, key: string, value: string)
    requires Provider(env) != "smtp"
    requires key in {"SMTP_HOST", "SMTP_PORT", "SMTP_SECURE", "SMTP_USER", "SMTP_PASSWORD"}
    ensures CreateService(env[key := value]) == CreateService(env)
  {
    assert Lookup(env[key := value], "EMAIL_PROVIDER") == Lookup(env, "EMAIL_PROVIDER");
    assert Lookup(env[key := value], "RESEND_API_KEY") == Lookup(env, "RESEND_API_KEY");
  }

  lemma SmtpIgnoresApiKey(env: map<string, string>, value: string)
    requires Provider(env) == "smtp"
    ensures CreateService(env["RESEND_API_KEY" := value]) == CreateService(env)
  {
    var env' := env["RESEND_API_KEY" := value];
    assert Provider(env') == "smtp";
    assert forall k :: k != "RESEND_API_KEY" ==> Lookup(env', k) == Lookup(env, k);
    assert SmtpConfigOf(env') == SmtpConfigOf(env);
  }
}
