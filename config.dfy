/** The constant tables and limits of the application's base configuration. */
module Config {

  /** Session inactivity limit, in seconds (30 minutes). */
  const SessionTimeoutSeconds: nat := 1800

  /** Row limit of the path query. */
  const MaxQueryLimit: nat := 5000

  /** Default minimum number of occurrences for a path to be reported. */
  const MinConversionsDefault: int := 5

  /** Path values (compared in lower case) that mean "no path". */
  const ExcludedPaths: seq<string> := ["null", "none", "", "undefined", "localhost", "127.0.0.1"]

  /** Display labels of known event codes. */
  const EventNameMapping: map<string, string> := map[
    "$MPLaunch" := "小程序启动",
    "$MPShow" := "页面显示",
    "$MPViewScreen" := "页面浏览",
    "$MPPageLeave" := "页面离开",
    "$MPHide" := "小程序隐藏",
    "$MPEnd" := "小程序结束",
    "click" := "点击事件",
    "search" := "搜索",
    "share" := "分享",
    "add_to_cart" := "添加购物车",
    "order_submit" := "提交订单",
    "product_view" := "商品浏览",
    "user_register" := "用户注册",
    "user_login" := "用户登录",
    "page_view" := "页面访问",
    "button_click" := "按钮点击",
    "form_submit" := "表单提交",
    "$pageview" := "页面浏览",
    "$WebClick" := "网页点击",
    "$WebStay" := "页面停留",
    "$SignUp" := "注册",
    "$track_signup" := "用户注册",
    "$identify" := "用户识别",
    "track" := "追踪事件",
    "identify" := "用户识别",
    "page" := "页面事件",
    "screen" := "屏幕事件"
  ]

  /** Known referrer keywords with their channel names, in table order. */
  const ReferrerMapping: seq<(string, string)> := [
    ("baidu", "百度搜索"),
    ("google", "谷歌搜索"),
    ("weixin", "微信"),
    ("wechat", "微信"),
    ("qq", "QQ"),
    ("sina", "新浪微博"),
    ("zhihu", "知乎"),
    ("douyin", "抖音"),
    ("xiaohongshu", "小红书"),
    ("direct", "直接访问")
  ]

  /** Every configured label is a non-empty string that differs from its own key. */
  lemma MappingLabelsProper()
    ensures forall k :: k in EventNameMapping ==> EventNameMapping[k] != [] && EventNameMapping[k] != k
  {
  }
}
