/** The fixed strings of the extension. */
module Constants {
  /** The one origin whose traffic is rewritten. */
  const BaseUrl := "https://www.youtube.com"

  /** The crawler identity sent in `useragent` mode. */
  const GooglebotUserAgent := "Mozilla/5.0 (compatible; Googlebot/2.1; +http://www.google.com/bot.html)"

  /** The view the browser is sent to after the home page when `homepage` is `"subscriptions"`. */
  const SubscriptionsUrl := BaseUrl + "/feed/subscriptions"
}
