/** The landing page (src/pages/Landing.tsx): the greeting chosen by the
    hour, the header's scrolled state, the dashboard link and the name in
    the welcome line. */
module Landing {
  import opened Domain
  import opened Text

  /** The three greetings of the day. */
  datatype Greeting = Morning | Afternoon | Evening

  const MorningText: string := "อรุณสวัสดิ์"
  const AfternoonText: string := "สวัสดีตอนบ่าย"
  const EveningText: string := "สวัสดีตอนเย็น"

  function GreetingText(g: Greeting): string
  {
    match g
    case Morning => MorningText
    case Afternoon => AfternoonText
    case Evening => EveningText
  }

  /** The greeting for the local hour. */
  function GreetingFor(hour: int): Greeting
  {
    if hour < 12 then Morning
    else if hour < 17 then Afternoon
    else Evening
  }

  /** Position of a greeting in the day. */
  function DayPart(g: Greeting): nat
  {
    match g
    case Morning => 0
    case Afternoon => 1
    case Evening => 2
  }

  /** Each hour gets exactly one greeting: morning before noon, afternoon
      from noon until five, evening from five on; greetings never go back
      as the hour advances, and the three read differently. */
  lemma GreetingPartition(hour: int, later: int)
    ensures GreetingFor(hour) == Morning <==> hour < 12
    ensures GreetingFor(hour) == Afternoon <==> 12 <= hour < 17
    ensures GreetingFor(hour) == Evening <==> 17 <= hour
    ensures hour <= later ==> DayPart(GreetingFor(hour)) <= DayPart(GreetingFor(later))
    ensures GreetingText(Morning) != GreetingText(Afternoon) && GreetingText(Afternoon) != GreetingText(Evening)
      && GreetingText(Morning) != GreetingText(Evening)
  {
    assert MorningText[0] == 'อ';
    assert AfternoonText[0] == 'ส';
    assert |AfternoonText| == 13 && |EveningText| == 13;
    assert AfternoonText[9] == 'บ' && EveningText[9] == 'เ';
  }

  /** The header turns solid once the page is scrolled past 20 pixels. */
  predicate Scrolled(scrollY: real)
  {
    scrollY > 20.0
  }

  /** Exactly 20 pixels is not yet scrolled, and scrolling further never
      undoes the state. */
  lemma ScrolledThreshold(y: real, further: real)
    ensures !Scrolled(20.0)
    ensures Scrolled(y) && y <= further ==> Scrolled(further)
  {
  }

  const LandownerDashboard: string := "/dashboard/landowner"
  const GardenerDashboard: string := "/dashboard/gardener"

  /** The dashboard link: the landowner's dashboard for landowners, the
      gardener's for everyone else (including an account with no role). */
  function DashboardLink(role: Option<Role>): string
  {
    if role == Some(Landowner) then LandownerDashboard else GardenerDashboard
  }

  lemma DashboardLinkByRole(role: Option<Role>)
    ensures DashboardLink(role) == LandownerDashboard <==> role == Some(Landowner)
    ensures DashboardLink(role) == GardenerDashboard <==> role != Some(Landowner)
  {
    assert LandownerDashboard[11] == 'l' && GardenerDashboard[11] == 'g';
  }

  /** The name in the welcome line: the profile's name when it has one,
      otherwise the part of the e-mail address before the first `@`;
      nothing when neither is known. */
  function DisplayName(profileName: Option<string>, email: Option<string>): (n: Option<string>)
    ensures Present(profileName) ==> n == profileName
    ensures !Present(profileName) && email.Some? ==> n.Some? && '@' !in n.value
    ensures !Present(profileName) && email.None? ==> n.None?
  {
    if Present(profileName) then profileName
    else if email.Some? then Some(BeforeFirst(email.value, '@'))
    else None
  }

  /** Without a profile name, an address `local@domain` greets `local`. */
  lemma DisplayNameFromEmail(profileName: Option<string>, local: string, domain: string)
    requires !Present(profileName) && '@' !in local
    ensures DisplayName(profileName, Some(local + "@" + domain)) == Some(local)
  {
    BeforeFirstCut(local, domain, '@');
  }

  /** An address without `@` is used whole. */
  lemma DisplayNameWithoutAt(profileName: Option<string>, email: string)
    requires !Present(profileName) && '@' !in email
    ensures DisplayName(profileName, Some(email)) == Some(email)
  {
    SplitNoSeparator(email, '@');
  }
}
