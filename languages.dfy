/** The sixteen language profiles of `LANG_MATRIX`: recognition model id and ethnonym. */
module Languages {

  datatype Language =
    | Truku | Amis | Paiwan | Bunun | Atayal | Rukai | Puyuma | Tsou
    | Saisiyat | Yami | Thao | Kavalan | Sakizaya | Seediq | Hlaalua | Kanakanavu

  /** The display name, which is the key of the table and the `lang` column of the corpus. */
  function DisplayName(l: Language): string {
    match l
    case Truku => "太魯閣語"
    case Amis => "阿美語"
    case Paiwan => "排灣語"
    case Bunun => "布農語"
    case Atayal => "泰雅語"
    case Rukai => "魯凱語"
    case Puyuma => "卑南語"
    case Tsou => "鄒語"
    case Saisiyat => "賽夏語"
    case Yami => "雅美語(達悟語)"
    case Thao => "邵語"
    case Kavalan => "噶瑪蘭語"
    case Sakizaya => "撒奇萊雅語"
    case Seediq => "賽德克語"
    case Hlaalua => "拉阿魯哇語"
    case Kanakanavu => "卡那卡那富語"
  }

  /** The `asr` entry: the recognition model id. */
  function AsrModel(l: Language): string {
    match l
    case Truku => "formosan_trv"
    case Amis => "formosan_ami"
    case Paiwan => "formosan_pwn"
    case Bunun => "formosan_bun"
    case Atayal => "formosan_tay"
    case Rukai => "formosan_dru"
    case Puyuma => "formosan_puy"
    case Tsou => "formosan_tsu"
    case Saisiyat => "formosan_sai"
    case Yami => "formosan_tao"
    case Thao => "formosan_tha"
    case Kavalan => "formosan_kab"
    case Sakizaya => "formosan_sak"
    case Seediq => "formosan_sed"
    case Hlaalua => "formosan_laa"
    case Kanakanavu => "formosan_kan"
  }

  /** The `eth` entry: the ethnonym the translation service resolves to a source code. */
  function Ethnonym(l: Language): string {
    match l
    case Truku => "太魯閣"
    case Amis => "阿美"
    case Paiwan => "排灣"
    case Bunun => "布農"
    case Atayal => "泰雅"
    case Rukai => "魯凱"
    case Puyuma => "卑南"
    case Tsou => "鄒"
    case Saisiyat => "賽夏"
    case Yami => "雅美"
    case Thao => "邵"
    case Kavalan => "噶瑪蘭"
    case Sakizaya => "撒奇萊雅"
    case Seediq => "賽德克"
    case Hlaalua => "拉阿魯哇"
    case Kanakanavu => "卡那卡那富"
  }

  /** The target language code of every translation request. */
  const TargetCode := "zho_Hant"

  /** Each profile has its own recognition model and its own ethnonym, and the display name determines the profile. */
  lemma ProfilesDistinct(a: Language, b: Language)
    requires a != b
    ensures AsrModel(a) != AsrModel(b)
    ensures Ethnonym(a) != Ethnonym(b)
    ensures DisplayName(a) != DisplayName(b)
  {
  }
}
