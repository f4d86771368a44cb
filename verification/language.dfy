/**
 * The bilingual vocabulary of the configuration language: Chinese words and
 * English synonyms are translated to the canonical English keywords before
 * anything else looks at a token (`LanguageMapping` in source/macro.py).
 */
module Language {
  import opened Wrappers

  /** `EN_SYNONYMS`: an English synonym and its canonical word. */
  function EnSynonym(word: string): Option<string> {
    match word
    case "yes" => Some("true")
    case "no" => Some("false")
    case "wait" => Some("delay")
    case "control" => Some("ctrl")
    case "trigger" => Some("trigger_key")
    case _ => None
  }

  /** `ZH_CN`: a Chinese word and its canonical English word. */
  function ZhCn(word: string): Option<string> {
    match word
    // configuration items
    case "名称" => Some("name")
    case "说明" => Some("description")
    case "触发键" => Some("trigger_key")
    case "循环" => Some("loop")
    case "重复" => Some("repeat")
    case "动作" => Some("actions")
    case "重置按键" => Some("reset_keys")
    case "附加按键" => Some("additional_keys")
    case "默认延迟" => Some("default_delay")
    case "跳过窗口检测" => Some("skip_window_check")
    case "忽略窗口检测" => Some("skip_window_check")
    case "结束按键" => Some("finish_actions")
    case "完成按键" => Some("finish_actions")
    case "结束动作" => Some("finish_actions")
    case "完成动作" => Some("finish_actions")
    case "起始动作" => Some("start_actions")
    case "开始动作" => Some("start_actions")
    // repeat mode
    case "按住时" => Some("hold")
    // action words
    case "按下" => Some("press")
    case "按住" => Some("keydown")
    case "松开" => Some("keyup")
    case "释放" => Some("keyup")
    case "等待" => Some("delay")
    case "延迟" => Some("delay")
    // booleans
    case "是" => Some("true")
    case "打开" => Some("true")
    case "启用" => Some("true")
    case "持续" => Some("true")
    case "否" => Some("false")
    case "关闭" => Some("false")
    case "禁用" => Some("false")
    case "停止" => Some("false")
    // special keys
    case "空格" => Some("space")
    case "回车" => Some("enter")
    case "退格" => Some("backspace")
    case "删除" => Some("delete")
    case "上" => Some("up")
    case "下" => Some("down")
    case "左" => Some("left")
    case "右" => Some("right")
    // mouse buttons, single click
    case "左键" => Some("leftclick")
    case "右键" => Some("rightclick")
    case "中键" => Some("middleclick")
    case "侧键1" => Some("x1click")
    case "侧键2" => Some("x2click")
    // mouse buttons, double click
    case "双击左键" => Some("leftdoubleclick")
    case "双击右键" => Some("rightdoubleclick")
    case "双击中键" => Some("middledoubleclick")
    case "双击侧键1" => Some("x1doubleclick")
    case "双击侧键2" => Some("x2doubleclick")
    // keypad
    case "小键盘0" => Some("keypad 0")
    case "小键盘1" => Some("keypad 1")
    case "小键盘2" => Some("keypad 2")
    case "小键盘3" => Some("keypad 3")
    case "小键盘4" => Some("keypad 4")
    case "小键盘5" => Some("keypad 5")
    case "小键盘6" => Some("keypad 6")
    case "小键盘7" => Some("keypad 7")
    case "小键盘8" => Some("keypad 8")
    case "小键盘9" => Some("keypad 9")
    case "小键盘点" => Some("keypad .")
    case "小键盘加" => Some("keypad +")
    case "小键盘减" => Some("keypad -")
    case "小键盘乘" => Some("keypad *")
    case "小键盘除" => Some("keypad /")
    case "小键盘回车" => Some("keypad enter")
    case _ => None
  }

  /** `table.get(word, word)`. */
  function Get(entry: Option<string>, word: string): string {
    if entry.Some? then entry.value else word
  }

  /** `_translate`: the Chinese table first, then the English synonyms. */
  function Translate(text: string): (r: string)
    ensures ZhCn(text).None? && EnSynonym(text).None? ==> r == text
  {
    var zh := Get(ZhCn(text), text);
    Get(EnSynonym(zh), zh)
  }

  /** Translating a canonical word again changes nothing. */
  lemma TranslateIdempotent(text: string)
    ensures Translate(Translate(text)) == Translate(text)
  {
    var zh := Get(ZhCn(text), text);
    if ZhCn(text).Some? {
      ChineseWordsAreCanonicalised(text);
      EnglishWordsAreNotChinese(zh);
    }
    if EnSynonym(zh).Some? {
      EnglishWordsAreNotChinese(EnSynonym(zh).value);
    }
  }

  predicate NonAscii(w: string) {
    w != [] && w[0] > '\U{7f}'
  }

  /** Every Chinese word is non-ASCII, its translation is ASCII and is no synonym. */
  lemma ChineseWordsAreCanonicalised(w: string)
    requires ZhCn(w).Some?
    ensures NonAscii(w) && !NonAscii(ZhCn(w).value) && EnSynonym(ZhCn(w).value).None?
  {
    ChineseWordIsNonAscii(w);
    ChineseTranslationIsAscii(w);
    ChineseTranslationIsNoSynonym(w);
  }

  lemma ChineseWordIsNonAscii(w: string)
    requires ZhCn(w).Some?
    ensures NonAscii(w)
  {
  }
  lemma ChineseTranslationIsAscii(w: string)
    requires ZhCn(w).Some?
    ensures !NonAscii(ZhCn(w).value)
  {
    if |w| <= 2 {
      ShortChineseTranslationIsAscii(w);
    } else if |w| == 4 {
      FourCharacterTranslationIsAscii(w);
    } else {
      OtherChineseTranslationIsAscii(w);
    }
  }

  lemma ShortChineseTranslationIsAscii(w: string)
    requires ZhCn(w).Some? && |w| <= 2
    ensures !NonAscii(ZhCn(w).value)
  {
  }

  lemma FourCharacterTranslationIsAscii(w: string)
    requires ZhCn(w).Some? && |w| == 4
    ensures !NonAscii(ZhCn(w).value)
  {
  }

  lemma OtherChineseTranslationIsAscii(w: string)
    requires ZhCn(w).Some? && |w| != 4 && |w| > 2
    ensures !NonAscii(ZhCn(w).value)
  {
  }

  lemma ChineseTranslationIsNoSynonym(w: string)
    requires ZhCn(w).Some?
    ensures EnSynonym(ZhCn(w).value).None?
  {
  }

  lemma EnglishWordsAreNotChinese(w: string)
    requires !NonAscii(w)
    ensures ZhCn(w).None?
    ensures EnSynonym(w).Some? ==> EnSynonym(EnSynonym(w).value).None? && !NonAscii(EnSynonym(w).value)
  {
  }
}
